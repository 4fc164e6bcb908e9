/** Planning a reset: the plan is built only over a job whose lineage graph checks out.
    The check is a depth-first search; it is proved to accept exactly the sound graphs,
    and to accept every job that a run of the protocol can leave behind. */
module ResetLineage {
  import opened Results
  import opened Ordering
  import opened PartState
  import opened Text
  import opened Protocol
  import opened Lineage

  /** A job's parts by part id. */
  type Index = m: map<string, Part> | forall id | id in m :: m[id].key.part == id witness map[]

  // ---- what a sound lineage is ----

  predicate LinkOk(parts: Index, output: Part, id: string) {
    && id != "" && id != output.key.part && id in parts
    && (parts[id].supersededBy == "" || parts[id].supersededBy == output.key.part)
  }

  /** A generated part's inputs, spaces trimmed, are distinct other parts of the job that nothing else superseded. */
  predicate LinksOk(parts: Index, output: Part) {
    && (forall i | 0 <= i < |output.inputs| :: LinkOk(parts, output, Trim(output.inputs[i])))
    && (forall i, j | 0 <= i < j < |output.inputs| :: Trim(output.inputs[i]) != Trim(output.inputs[j]))
  }

  /** Where the superseding part exists, it is generated and lists the part. */
  predicate BackLinkOk(parts: Index, id: string)
    requires id in parts
  {
    var superseding := parts[id].supersededBy;
    !Blank(superseding) && superseding in parts ==> IsGenerated(parts[superseding]) && id in parts[superseding].inputs
  }

  function InputsOf(parts: Index, id: string): seq<string> {
    if id in parts && IsGenerated(parts[id]) then parts[id].inputs else []
  }

  ghost predicate Walk(parts: Index, xs: seq<string>) {
    forall i | 0 <= i < |xs| - 1 :: xs[i + 1] in InputsOf(parts, xs[i])
  }

  ghost predicate Cyclic(parts: Index) {
    exists xs: seq<string> :: |xs| >= 2 && xs[0] == xs[|xs| - 1] && Walk(parts, xs)
  }

  ghost predicate LineageSound(parts: Index) {
    && (forall id | id in parts && IsGenerated(parts[id]) :: LinksOk(parts, parts[id]))
    && (forall id | id in parts :: BackLinkOk(parts, id))
    && !Cyclic(parts)
  }

  // ---- the search ----

  /** Every part comes after all of its inputs. */
  ghost predicate Topological(parts: Index, xs: seq<string>) {
    forall i, x | 0 <= i < |xs| && x in InputsOf(parts, xs[i]) :: x in xs[..i]
  }

  ghost function FirstAt(xs: seq<string>, x: string): (i: nat)
    requires x in xs
    ensures i < |xs| && xs[i] == x && x !in xs[..i]
  {
    if xs[0] == x then 0 else 1 + FirstAt(xs[1..], x)
  }

  /** Along any walk that starts in a topological list, first positions fall. */
  lemma {:induction false} WalkFalls(parts: Index, order: seq<string>, xs: seq<string>)
    requires Topological(parts, order) && Walk(parts, xs) && |xs| >= 2 && xs[0] in order
    ensures xs[|xs| - 1] in order && FirstAt(order, xs[|xs| - 1]) < FirstAt(order, xs[0])
  {
    var i := FirstAt(order, xs[0]);
    assert xs[1] in order[..i];
    assert FirstAt(order, xs[1]) < i;
    if |xs| > 2 {
      assert forall k | 0 <= k < |xs| - 2 :: xs[1..][k] == xs[k + 1];
      WalkFalls(parts, order, xs[1..]);
    }
  }

  lemma TopologicalGrows(parts: Index, xs: seq<string>, id: string)
    requires Topological(parts, xs) && forall x | x in InputsOf(parts, id) :: x in xs
    ensures Topological(parts, xs + [id])
  {
    forall i, x | 0 <= i < |xs + [id]| && x in InputsOf(parts, (xs + [id])[i]) ensures x in (xs + [id])[..i] {
      assert (xs + [id])[..i] == xs[..i];
    }
  }

  /** A finished search over all generated parts excludes cycles. */
  lemma FinishedMeansAcyclic(parts: Index, order: seq<string>)
    requires Topological(parts, order)
    requires forall id | id in parts && IsGenerated(parts[id]) :: id in order
    ensures !Cyclic(parts)
  {
    forall xs: seq<string> | |xs| >= 2 && Walk(parts, xs) ensures xs[0] != xs[|xs| - 1] {
      assert xs[0 + 1] in InputsOf(parts, xs[0]);
      WalkFalls(parts, order, xs);
    }
  }

  lemma StackGrows(parts: Index, stack: seq<string>, id: string)
    requires Walk(parts, stack) && (stack == [] || id in InputsOf(parts, stack[|stack| - 1]))
    ensures Walk(parts, stack + [id])
  {
    hide InputsOf;
  }

  /** Meeting a part that is still being visited closes a cycle. */
  lemma StackClosesCycle(parts: Index, stack: seq<string>, id: string)
    requires Walk(parts, stack) && id in stack && id in InputsOf(parts, stack[|stack| - 1])
    ensures Cyclic(parts)
  {
    hide InputsOf;
    var i := FirstAt(stack, id);
    var xs := stack[i..] + [id];
    forall j | 0 <= j < |xs| - 1 ensures xs[j + 1] in InputsOf(parts, xs[j]) {
      assert xs[j] == stack[i + j];
      if j + 1 < |xs| - 1 { assert xs[j + 1] == stack[i + j + 1]; }
    }
  }

  lemma OnlyKnownPartsHaveInputs(parts: Index, id: string)
    requires InputsOf(parts, id) != []
    ensures id in parts
  {}

  /** The search's two maps, as sets of the ids they map to true, with the call stack and the finishing order as ghosts. */
  class Search {
    const parts: Index
    var visiting: set<string>
    var visited: set<string>
    ghost var stack: seq<string>
    ghost var finished: seq<string>

    constructor (parts: Index)
      ensures this.parts == parts && Valid() && stack == [] && visited == {}
    {
      this.parts := parts;
      visiting, visited, stack, finished := {}, {}, [], [];
    }

    ghost predicate Valid()
      reads this
    {
      && (forall id :: id in visiting <==> id in stack)
      && (forall id :: id in visited <==> id in finished)
      && visiting !! visited
      && Walk(parts, stack)
      && Topological(parts, finished)
    }

    method Visit(id: string) returns (cycle: Option<string>)
      requires Valid() && (stack == [] || id in InputsOf(parts, stack[|stack| - 1]))
      modifies this
      ensures cycle.Some? ==> Cyclic(parts)
      ensures cycle.None? ==> Valid() && stack == old(stack) && id in visited && old(visited) <= visited
      decreases parts.Keys - visiting
    {
      hide Cyclic, Walk, Topological, InputsOf;
      if id in visiting {
        StackClosesCycle(parts, stack, id);
        return Some(id);
      }
      if id in visited { return None; }
      ghost var above := stack;
      StackGrows(parts, stack, id);
      visiting, stack := visiting + {id}, stack + [id];
      var inputs := InputsOf(parts, id);
      var i := 0;
      while i < |inputs|
        invariant 0 <= i <= |inputs|
        invariant Valid() && stack == above + [id] && visiting == old(visiting) + {id} && old(visited) <= visited
        invariant forall x | x in inputs[..i] :: x in visited
      {
        assert id in parts.Keys - old(visiting) by { OnlyKnownPartsHaveInputs(parts, id); }
        cycle := Visit(inputs[i]);
        if cycle.Some? { return; }
        i := i + 1;
      }
      assert inputs[..i] == inputs;
      TopologicalGrows(parts, finished, id);
      visiting, stack := visiting - {id}, above;
      visited, finished := visited + {id}, finished + [id];
      return None;
    }
  }

  // ---- the three checks ----

  method CheckInputs(parts: Index, output: Part) returns (ok: bool)
    ensures ok <==> LinksOk(parts, output)
  {
    hide Trim;
    var seen: set<string> := {};
    var i := 0;
    while i < |output.inputs|
      invariant 0 <= i <= |output.inputs|
      invariant forall j | 0 <= j < i :: LinkOk(parts, output, Trim(output.inputs[j]))
      invariant forall j, k | 0 <= j < k < i :: Trim(output.inputs[j]) != Trim(output.inputs[k])
      invariant forall id :: id in seen <==> exists j | 0 <= j < i :: Trim(output.inputs[j]) == id
    {
      var id := Trim(output.inputs[i]);
      if id == "" || id == output.key.part || id in seen || id !in parts { return false; }
      if parts[id].supersededBy != "" && parts[id].supersededBy != output.key.part { return false; }
      seen := seen + {id};
      i := i + 1;
    }
    return true;
  }

  method CheckBackLinks(parts: Index) returns (ok: bool)
    ensures ok <==> forall id | id in parts :: BackLinkOk(parts, id)
  {
    hide BackLinkOk;
    var left := parts.Keys;
    while left != {}
      invariant left <= parts.Keys
      invariant forall id | id in parts && id !in left :: BackLinkOk(parts, id)
      decreases left
    {
      var id :| id in left;
      if !BackLinkOk(parts, id) { return false; }
      left := left - {id};
    }
    return true;
  }

  method CheckAcyclic(parts: Index, generated: seq<Part>) returns (ok: bool)
    requires forall p :: p in generated <==> p.key.part in parts && parts[p.key.part] == p && IsGenerated(p)
    ensures ok <==> !Cyclic(parts)
  {
    hide Cyclic, InputsOf;
    var search := new Search(parts);
    var i := 0;
    while i < |generated|
      invariant 0 <= i <= |generated|
      invariant search.parts == parts && search.Valid() && search.stack == []
      invariant forall j | 0 <= j < i :: generated[j].key.part in search.visited
    {
      var cycle := search.Visit(generated[i].key.part);
      if cycle.Some? { return false; }
      i := i + 1;
    }
    assert forall id | id in parts && IsGenerated(parts[id]) :: parts[id] in generated;
    FinishedMeansAcyclic(parts, search.finished);
    return true;
  }

  /** Accepts exactly the sound lineages, and ends on every graph. */
  method ValidateResetLineage(parts: Index, generated: seq<Part>) returns (ok: bool)
    requires forall p :: p in generated <==> p.key.part in parts && parts[p.key.part] == p && IsGenerated(p)
    ensures ok <==> LineageSound(parts)
  {
    hide LinksOk, BackLinkOk, Cyclic;
    var i := 0;
    while i < |generated|
      invariant 0 <= i <= |generated|
      invariant forall j | 0 <= j < i :: LinksOk(parts, generated[j])
    {
      ok := CheckInputs(parts, generated[i]);
      if !ok {
        assert generated[i] in generated;
        return false;
      }
      i := i + 1;
    }
    assert forall id | id in parts && IsGenerated(parts[id]) :: parts[id] in generated;
    ok := CheckBackLinks(parts);
    if ok { ok := CheckAcyclic(parts, generated); }
  }

  // ---- the plan ----

  datatype ResetMode = ResetJob | ResetCompaction | UnknownMode

  datatype ResetPlan = ResetPlan(job: string, target: Status, originals: seq<Part>, generated: seq<Part>)

  predicate ImportStarted(p: Part) {
    p.status == Importing || p.status == Imported || p.importingAt.Some? || p.importedAt.Some?
  }

  predicate PartResettable(job: string, p: Part) {
    p.key.job == job && !ImportStarted(p) && (IsGenerated(p) ==> p.inputs != [])
  }

  predicate CompactionResettable(p: Part) {
    !Blank(p.finishedKey) && HasDestination(p) && (p.stats.count > 0 ==> |p.partitionCounts| > 0)
  }

  predicate DistinctIds(parts: seq<Part>) {
    forall i, j | 0 <= i < j < |parts| :: parts[i].key.part != parts[j].key.part
  }

  function IndexOf(parts: seq<Part>): (index: Index)
    ensures forall p | p in parts :: p.key.part in index
    ensures forall id | id in index :: index[id] in parts
  {
    if parts == [] then map[]
    else
      var last := parts[|parts| - 1];
      assert forall p :: p in parts <==> p in parts[..|parts| - 1] || p == last;
      IndexOf(parts[..|parts| - 1])[last.key.part := last]
  }

  lemma IndexFinds(parts: seq<Part>, p: Part)
    requires DistinctIds(parts) && p in parts
    ensures IndexOf(parts)[p.key.part] == p
  {
    var q := IndexOf(parts)[p.key.part];
    var i, j :| 0 <= i < |parts| && 0 <= j < |parts| && parts[i] == p && parts[j] == q;
  }

  /** What a plan demands of the snapshot it is built on. */
  ghost predicate Resettable(job: string, parts: seq<Part>, mode: ResetMode) {
    && job != "" && !mode.UnknownMode? && AllResettable(job, parts)
    && (exists p | p in parts :: !IsGenerated(p))
    && LineageSound(IndexOf(parts))
    && (mode.ResetCompaction? ==> forall p | p in parts && !IsGenerated(p) :: CompactionResettable(p))
  }

  predicate NotCompacted(p: Part) {
    p.inputs == [] && p.generation == 0
  }

  /** A row of the job that is not importing or imported; a compacted row names its inputs. */
  predicate NotImported(job: string, p: Part) {
    && p.key.job == job && p.status != Importing && p.status != Imported && p.importingAt.None? && p.importedAt.None?
    && (p.inputs == [] ==> p.generation == 0)
  }

  /** The rewrite's artifact and destination are known, and the partitions of any physical parts. */
  predicate RewriteKnown(p: Part) {
    && !Blank(p.finishedKey)
    && !Blank(p.destination.database) && !Blank(p.destination.table) && !Blank(p.destination.schema)
    && (p.stats.count == 0 || p.partitionCounts != map[])
  }

  lemma RowRules(job: string, p: Part)
    ensures NotCompacted(p) <==> !IsGenerated(p)
    ensures NotImported(job, p) <==> PartResettable(job, p)
    ensures RewriteKnown(p) <==> CompactionResettable(p)
  {
    hide Blank;
  }

  lemma AllResettableExactly(job: string, parts: seq<Part>)
    ensures AllResettable(job, parts) <==>
              && (forall i, j | 0 <= i < j < |parts| :: parts[i].key.part != parts[j].key.part)
              && forall p | p in parts :: NotImported(job, p)
  {
    forall p ensures NotImported(job, p) <==> PartResettable(job, p) { RowRules(job, p); }
    hide NotImported, PartResettable;
    assert (forall i | 0 <= i < |parts| :: PartResettable(job, parts[i])) <==> forall p | p in parts :: PartResettable(job, p);
  }

  lemma OriginalRules(parts: seq<Part>)
    ensures (exists p | p in parts :: NotCompacted(p)) <==> exists p | p in parts :: !IsGenerated(p)
    ensures (forall p | p in parts && NotCompacted(p) :: RewriteKnown(p)) <==>
            forall p | p in parts && !IsGenerated(p) :: CompactionResettable(p)
  {
    forall p ensures (NotCompacted(p) <==> !IsGenerated(p)) && (RewriteKnown(p) <==> CompactionResettable(p)) { RowRules("", p); }
    hide NotCompacted, RewriteKnown, IsGenerated, CompactionResettable;
  }

  /** What can be reset, told on the rows: distinct ids, none importing or imported, some row not compacted, a sound lineage; for a
      reset to compaction every row that is not compacted has a complete rewrite. */
  lemma ResettableExactly(job: string, parts: seq<Part>, mode: ResetMode)
    ensures Resettable(job, parts, mode) <==>
              && job != "" && (mode == ResetJob || mode == ResetCompaction)
              && (forall i, j | 0 <= i < j < |parts| :: parts[i].key.part != parts[j].key.part)
              && (forall p | p in parts :: NotImported(job, p))
              && (exists p | p in parts :: NotCompacted(p))
              && LineageSound(IndexOf(parts))
              && (mode == ResetCompaction ==> forall p | p in parts && NotCompacted(p) :: RewriteKnown(p))
  {
    AllResettableExactly(job, parts);
    OriginalRules(parts);
    hide LineageSound, IndexOf, NotCompacted, NotImported, RewriteKnown, IsGenerated, AllResettable, CompactionResettable;
  }

  predicate ById(xs: seq<Part>) {
    forall i, j | 0 <= i < j < |xs| :: NameLess(xs[i].key.part, xs[j].key.part)
  }

  function Pick(index: Index, ids: seq<string>): (ys: seq<Part>)
    requires forall id | id in ids :: id in index
    ensures |ys| == |ids| && forall i | 0 <= i < |ids| :: ys[i] == index[ids[i]]
  {
    seq(|ids|, i requires 0 <= i < |ids| => index[ids[i]])
  }

  /** sort.Slice by part id. */
  function SortById(xs: seq<Part>): (ys: seq<Part>)
    requires DistinctIds(xs)
    ensures |ys| == |xs| && ById(ys)
    ensures forall p :: p in ys <==> p in xs
  {
    NameOrder();
    var ids := Sorted(NameLess, IndexOf(xs).Keys);
    PickedAreAll(xs, ids);
    Pick(IndexOf(xs), ids)
  }

  lemma PickedAreAll(xs: seq<Part>, ids: seq<string>)
    requires DistinctIds(xs) && Ascending(NameLess, ids) && |ids| == |IndexOf(xs)|
    requires forall id :: id in ids <==> id in IndexOf(xs)
    ensures var ys := Pick(IndexOf(xs), ids);
      |ys| == |xs| && ById(ys) && forall p :: p in ys <==> p in xs
  {
    hide NameLess, IndexOf;
    IndexSize(xs);
    var ys := Pick(IndexOf(xs), ids);
    forall p | p in ys ensures p in xs {
      var i :| 0 <= i < |ids| && ys[i] == p;
      assert ids[i] in ids;
    }
    forall p | p in xs ensures p in ys {
      IndexFinds(xs, p);
      var i :| 0 <= i < |ids| && ids[i] == p.key.part;
      assert ys[i] == p;
    }
    forall i, j | 0 <= i < j < |ys| ensures NameLess(ys[i].key.part, ys[j].key.part) {
      assert ids[i] in ids && ids[j] in ids;
    }
  }

  lemma {:induction false} IndexSize(parts: seq<Part>)
    requires DistinctIds(parts)
    ensures |IndexOf(parts)| == |parts|
  {
    if parts != [] {
      var front, last := parts[..|parts| - 1], parts[|parts| - 1];
      IndexSize(front);
      assert last.key.part !in IndexOf(front);
    }
  }

  /** The parts of one kind, in order. */
  function OfKind(parts: seq<Part>, generated: bool): (xs: seq<Part>) {
    if parts == [] then []
    else
      var last := parts[|parts| - 1];
      OfKind(parts[..|parts| - 1], generated) + if IsGenerated(last) == generated then [last] else []
  }

  lemma {:induction false} OfKindMembers(parts: seq<Part>, generated: bool)
    ensures forall p :: p in OfKind(parts, generated) <==> p in parts && IsGenerated(p) == generated
  {
    hide IsGenerated;
    if parts != [] {
      OfKindMembers(parts[..|parts| - 1], generated);
      assert forall p :: p in parts <==> p in parts[..|parts| - 1] || p == parts[|parts| - 1];
    }
  }

  lemma {:induction false} OfKindDistinct(parts: seq<Part>, generated: bool)
    requires DistinctIds(parts)
    ensures DistinctIds(OfKind(parts, generated))
  {
    hide IsGenerated;
    if parts != [] {
      var front, xs := parts[..|parts| - 1], OfKind(parts[..|parts| - 1], generated);
      OfKindDistinct(front, generated);
      OfKindMembers(front, generated);
      forall i | 0 <= i < |xs| ensures xs[i].key.part != parts[|parts| - 1].key.part {
        assert xs[i] in front;
      }
    }
  }

  lemma OneMore(parts: seq<Part>, i: nat, generated: bool)
    requires i < |parts|
    ensures IndexOf(parts[..i + 1]) == IndexOf(parts[..i])[parts[i].key.part := parts[i]]
    ensures OfKind(parts[..i + 1], generated) ==
            OfKind(parts[..i], generated) + if IsGenerated(parts[i]) == generated then [parts[i]] else []
  {
    hide IsGenerated;
    assert parts[..i + 1][..i] == parts[..i];
  }

  ghost predicate AllResettable(job: string, parts: seq<Part>) {
    DistinctIds(parts) && forall i | 0 <= i < |parts| :: PartResettable(job, parts[i])
  }

  lemma PrefixResettable(job: string, parts: seq<Part>, i: nat)
    requires i <= |parts| && AllResettable(job, parts)
    ensures AllResettable(job, parts[..i])
  {
    hide PartResettable;
    assert forall j | 0 <= j < i :: parts[..i][j] == parts[j];
  }

  lemma RepeatedId(parts: seq<Part>, i: nat)
    requires i < |parts| && parts[i].key.part in IndexOf(parts[..i])
    ensures !DistinctIds(parts[..i + 1])
  {
    assert IndexOf(parts[..i])[parts[i].key.part] in parts[..i];
    hide IndexOf;
    var j :| 0 <= j < i && parts[j].key.part == parts[i].key.part;
    assert parts[..i + 1][j] == parts[j] && parts[..i + 1][i] == parts[i];
  }

  lemma NewId(parts: seq<Part>, i: nat)
    requires i < |parts| && DistinctIds(parts[..i]) && parts[i].key.part !in IndexOf(parts[..i])
    ensures DistinctIds(parts[..i + 1])
  {
    var front, last := parts[..i], parts[i];
    forall p | p in front ensures p.key.part != last.key.part { assert p.key.part in IndexOf(front); }
    hide IndexOf;
    assert parts[..i + 1] == front + [last];
    DistinctAppend(front, last);
  }

  lemma DistinctAppend(front: seq<Part>, last: Part)
    requires DistinctIds(front) && forall p | p in front :: p.key.part != last.key.part
    ensures DistinctIds(front + [last])
  {
    forall j | 0 <= j < |front| ensures front[j].key.part != last.key.part { assert front[j] in front; }
  }

  lemma NextResettable(job: string, parts: seq<Part>, i: nat)
    requires i < |parts| && AllResettable(job, parts[..i])
    ensures AllResettable(job, parts[..i + 1]) <==> parts[i].key.part !in IndexOf(parts[..i]) && PartResettable(job, parts[i])
    ensures !AllResettable(job, parts[..i + 1]) ==> !AllResettable(job, parts)
  {
    hide PartResettable, IndexOf, DistinctIds;
    assert parts[..i + 1] == parts[..i] + [parts[i]];
    if parts[i].key.part in IndexOf(parts[..i]) { RepeatedId(parts, i); } else { NewId(parts, i); }
    hide AllResettable;
    if AllResettable(job, parts) { PrefixResettable(job, parts, i + 1); }
  }

  /** The first loop: reject a snapshot that cannot be reset, and split it into originals and generated parts. */
  method Classify(job: string, parts: seq<Part>) returns (ok: bool, index: Index, originals: seq<Part>, generated: seq<Part>)
    ensures ok <==> AllResettable(job, parts)
    ensures ok ==> index == IndexOf(parts) && originals == OfKind(parts, false) && generated == OfKind(parts, true)
  {
    hide IsGenerated, PartResettable, OfKind, IndexOf, AllResettable;
    assert AllResettable(job, []) by { NothingToReset(job); }
    index, originals, generated := IndexOf([]), OfKind([], false), OfKind([], true);
    var i := 0;
    while i < |parts|
      invariant 0 <= i <= |parts|
      invariant AllResettable(job, parts[..i]) && index == IndexOf(parts[..i])
      invariant originals == OfKind(parts[..i], false) && generated == OfKind(parts[..i], true)
    {
      OneMore(parts, i, false);
      OneMore(parts, i, true);
      NextResettable(job, parts, i);
      if parts[i].key.part in index || !PartResettable(job, parts[i]) { return false, index, originals, generated; }
      index := index[parts[i].key.part := parts[i]];
      if IsGenerated(parts[i]) { generated := generated + [parts[i]]; } else { originals := originals + [parts[i]]; }
      i := i + 1;
    }
    assert parts[..i] == parts;
    ok := true;
  }

  lemma NothingToReset(job: string)
    ensures AllResettable(job, [])
  {}

  method CheckOriginals(originals: seq<Part>) returns (ok: bool)
    ensures ok <==> forall p | p in originals :: CompactionResettable(p)
  {
    var i := 0;
    while i < |originals|
      invariant 0 <= i <= |originals|
      invariant forall k | 0 <= k < i :: CompactionResettable(originals[k])
    {
      if !CompactionResettable(originals[i]) {
        assert originals[i] in originals;
        return false;
      }
      i := i + 1;
    }
    return true;
  }

  /** A plan exists exactly for a resettable snapshot, and splits all of it into the two sorted lists. */
  method BuildResetPlan(jobId: string, parts: seq<Part>, mode: ResetMode) returns (plan: Option<ResetPlan>)
    ensures plan.Some? <==> Resettable(Trim(jobId), parts, mode)
    ensures plan.Some? ==>
              && plan.value.job == Trim(jobId)
              && plan.value.target == (if mode.ResetCompaction? then CompactReady else Ready)
              && ById(plan.value.originals) && ById(plan.value.generated)
              && (forall p :: p in plan.value.originals <==> p in parts && !IsGenerated(p))
              && (forall p :: p in plan.value.generated <==> p in parts && IsGenerated(p))
  {
    hide LineageSound, Trim, CompactionResettable, IsGenerated, PartResettable, DistinctIds, IndexOf, SortById, ById, OfKind;
    var job := Trim(jobId);
    if job == "" || parts == [] { return None; }
    var ok, index, originals, generated := Classify(job, parts);
    if !ok { return None; }
    OfKindDistinct(parts, false);
    OfKindDistinct(parts, true);
    OfKindMembers(parts, false);
    OfKindMembers(parts, true);
    if originals == [] {
      assert forall p | p in parts :: IsGenerated(p);
      return None;
    }
    assert originals[0] in originals;
    forall p | p in parts ensures index[p.key.part] == p { IndexFinds(parts, p); }
    ok := ValidateResetLineage(index, generated);
    if !ok || mode.UnknownMode? { return None; }
    if mode.ResetCompaction? {
      ok := CheckOriginals(originals);
      if !ok { return None; }
    }
    return Some(ResetPlan(job, if mode.ResetCompaction? then CompactReady else Ready, SortById(originals), SortById(generated)));
  }

  // ---- padded ids ----
  // The link check reads an input id without the spaces around it; the back-link check, the search and every
  // comparison of a superseding id read it as written. Part ids themselves carry no padding here.

  ghost predicate TrimmedIds(parts: Index) {
    forall id | id in parts :: Trim(id) == id
  }

  /** The lineage as meant: `x` lists `y`, with spaces around the listed id ignored. */
  ghost predicate MeantInput(parts: Index, x: string, y: string) {
    exists id | id in InputsOf(parts, x) :: Trim(id) == y
  }

  ghost predicate MeantWalk(parts: Index, xs: seq<string>) {
    forall i | 0 <= i < |xs| - 1 :: MeantInput(parts, xs[i], xs[i + 1])
  }

  ghost predicate MeantCycle(parts: Index, xs: seq<string>) {
    |xs| >= 2 && xs[0] == xs[|xs| - 1] && MeantWalk(parts, xs)
  }

  ghost predicate MeantCyclic(parts: Index) {
    exists xs: seq<string> :: MeantCycle(parts, xs)
  }

  function MeantSuperseder(parts: Index, id: string): string
    requires id in parts
  {
    Trim(parts[id].supersededBy)
  }

  ghost predicate MeantLinkOk(parts: Index, output: Part, id: string) {
    && id != "" && id != output.key.part && id in parts
    && (MeantSuperseder(parts, id) == "" || MeantSuperseder(parts, id) == output.key.part)
  }

  ghost predicate MeantLinksOk(parts: Index, output: Part) {
    && (forall i | 0 <= i < |output.inputs| :: MeantLinkOk(parts, output, Trim(output.inputs[i])))
    && (forall i, j | 0 <= i < j < |output.inputs| :: Trim(output.inputs[i]) != Trim(output.inputs[j]))
  }

  ghost predicate MeantBackLinkOk(parts: Index, id: string)
    requires id in parts
  {
    var superseding := MeantSuperseder(parts, id);
    superseding != "" && superseding in parts ==> MeantInput(parts, superseding, id)
  }

  ghost predicate MeantLinks(parts: Index) {
    forall k | k in parts && IsGenerated(parts[k]) :: MeantLinksOk(parts, parts[k])
  }

  ghost predicate MeantBackLinks(parts: Index) {
    forall id | id in parts :: MeantBackLinkOk(parts, id)
  }

  /** The lineage is sound when every id is read without the spaces around it. */
  ghost predicate MeantSound(parts: Index) {
    MeantLinks(parts) && MeantBackLinks(parts) && !MeantCyclic(parts)
  }

  /** The part names the part that superseded it with spaces around the id. */
  predicate PaddedSuperseder(parts: Index, id: string)
    requires id in parts
  {
    MeantSuperseder(parts, id) != parts[id].supersededBy
  }

  /** The part that superseded it lists it, but only with spaces around its id. */
  ghost predicate ListedOnlyPadded(parts: Index, id: string)
    requires id in parts
  {
    var superseding := parts[id].supersededBy;
    !Blank(superseding) && superseding in parts && MeantInput(parts, superseding, id) && id !in InputsOf(parts, superseding)
  }

  ghost predicate Listed(parts: Index, id: string) {
    exists x | x in parts :: MeantInput(parts, x, id)
  }

  ghost predicate PaddedListing(parts: Index) {
    exists id | id in parts :: ListedOnlyPadded(parts, id)
  }

  ghost predicate PaddedInputSuperseder(parts: Index) {
    exists id | id in parts :: PaddedSuperseder(parts, id) && Listed(parts, id)
  }

  /** A padded superseding id that, read without its spaces, names a part of the job. */
  ghost predicate PaddedSupersederExists(parts: Index) {
    exists id | id in parts :: PaddedSuperseder(parts, id) && MeantSuperseder(parts, id) in parts && MeantSuperseder(parts, id) != ""
  }

  ghost predicate BackLinksAsWritten(parts: Index) {
    forall id | id in parts :: MeantBackLinkOk(parts, id) || PaddedSuperseder(parts, id)
  }

  /** Every cycle goes through an id listed with spaces around it. */
  ghost predicate CyclesArePadded(parts: Index) {
    forall xs: seq<string> | MeantCycle(parts, xs) :: !Walk(parts, xs)
  }

  lemma RawInputIsMeant(parts: Index, x: string, y: string)
    requires y in InputsOf(parts, x) && Trim(y) == y
    ensures MeantInput(parts, x, y)
  {
    hide InputsOf, Trim;
  }

  lemma LinkAgrees(parts: Index, output: Part, id: string)
    requires TrimmedIds(parts) && output.key.part in parts
    ensures LinkOk(parts, output, id) <==> MeantLinkOk(parts, output, id) && !PaddedSuperseder(parts, id)
  {
    assert Trim("") == "";
    hide Trim;
  }

  lemma LinksAgree(parts: Index, k: string)
    requires TrimmedIds(parts) && k in parts && IsGenerated(parts[k])
    ensures LinksOk(parts, parts[k]) <==>
              MeantLinksOk(parts, parts[k]) && forall id | id in parts && MeantInput(parts, k, id) :: !PaddedSuperseder(parts, id)
  {
    var output := parts[k];
    forall i | 0 <= i < |output.inputs|
      ensures LinkOk(parts, output, Trim(output.inputs[i])) <==>
                MeantLinkOk(parts, output, Trim(output.inputs[i])) && !PaddedSuperseder(parts, Trim(output.inputs[i]))
      ensures MeantInput(parts, k, Trim(output.inputs[i]))
    {
      LinkAgrees(parts, output, Trim(output.inputs[i]));
      assert output.inputs[i] in InputsOf(parts, k);
    }
    MeantInputsAreInputs(parts, k);
    hide Trim, PaddedSuperseder, LinkOk, MeantInput, TrimmedIds;
    assert forall i | 0 <= i < |output.inputs| :: MeantLinkOk(parts, output, Trim(output.inputs[i])) ==> Trim(output.inputs[i]) in parts;
    hide MeantLinkOk;
  }

  lemma MeantInputsAreInputs(parts: Index, k: string)
    requires k in parts
    ensures forall id | MeantInput(parts, k, id) :: exists i | 0 <= i < |parts[k].inputs| :: Trim(parts[k].inputs[i]) == id
  {
    hide Trim;
    forall id | MeantInput(parts, k, id) ensures exists i | 0 <= i < |parts[k].inputs| :: Trim(parts[k].inputs[i]) == id {
      var x :| x in InputsOf(parts, k) && Trim(x) == id;
      var i :| 0 <= i < |parts[k].inputs| && parts[k].inputs[i] == x;
    }
  }

  lemma AllLinksAgree(parts: Index)
    requires TrimmedIds(parts)
    ensures (forall k | k in parts && IsGenerated(parts[k]) :: LinksOk(parts, parts[k])) <==>
              MeantLinks(parts) && !PaddedInputSuperseder(parts)
  {
    hide TrimmedIds, LinksOk, MeantLinksOk, PaddedSuperseder;
    forall k | k in parts && IsGenerated(parts[k])
      ensures LinksOk(parts, parts[k]) <==>
                MeantLinksOk(parts, parts[k]) && forall id | id in parts && MeantInput(parts, k, id) :: !PaddedSuperseder(parts, id)
    {
      LinksAgree(parts, k);
    }
    OnlyGeneratedList(parts);
    hide MeantInput, IsGenerated;
  }

  lemma OnlyGeneratedList(parts: Index)
    ensures forall x, y | MeantInput(parts, x, y) :: x in parts && IsGenerated(parts[x])
  {
    hide Trim, IsGenerated;
  }

  lemma BackLinkAgrees(parts: Index, id: string)
    requires TrimmedIds(parts) && id in parts
    ensures BackLinkOk(parts, id) <==>
              (MeantBackLinkOk(parts, id) || PaddedSuperseder(parts, id)) && !ListedOnlyPadded(parts, id)
  {
    var superseding := parts[id].supersededBy;
    TrimUnpads(superseding);
    OnlyGeneratedList(parts);
    if superseding in parts && id in InputsOf(parts, superseding) { RawInputIsMeant(parts, superseding, id); }
    hide Trim, Blank, MeantInput, IsGenerated;
  }

  /** A cycle the search sees is a cycle that crosses no padded id. */
  lemma CyclesAgree(parts: Index)
    requires TrimmedIds(parts)
    ensures Cyclic(parts) <==> !CyclesArePadded(parts)
  {
    hide Trim, MeantWalk;
    forall xs: seq<string> | |xs| >= 2 && xs[0] == xs[|xs| - 1] && Walk(parts, xs) ensures MeantCycle(parts, xs) {
      SeenWalkIsMeant(parts, xs);
    }
    hide Walk;
  }

  lemma SeenWalkIsMeant(parts: Index, xs: seq<string>)
    requires TrimmedIds(parts) && |xs| >= 2 && xs[0] == xs[|xs| - 1] && Walk(parts, xs)
    ensures MeantWalk(parts, xs)
  {
    hide Trim, InputsOf, MeantInput;
    forall i | 0 <= i < |xs| - 1 ensures MeantInput(parts, xs[i], xs[i + 1]) {
      var j := if i + 1 < |xs| - 1 then i + 1 else 0;
      assert xs[j] == xs[i + 1] && xs[j + 1] in InputsOf(parts, xs[j]);
      OnlyKnownPartsHaveInputs(parts, xs[j]);
      RawInputIsMeant(parts, xs[i], xs[i + 1]);
    }
  }

  /** What the validator accepts, in terms of the lineage as meant: it rejects a superseded part that is listed only with
      spaces, and an input whose own superseding id has them; it cannot see a cycle through padded ids, nor follow a
      padded superseding id. */
  lemma AcceptedExactly(parts: Index)
    requires TrimmedIds(parts)
    ensures LineageSound(parts) <==>
              && MeantLinks(parts) && !PaddedInputSuperseder(parts)
              && BackLinksAsWritten(parts) && !PaddedListing(parts)
              && CyclesArePadded(parts)
  {
    AllLinksAgree(parts);
    CyclesAgree(parts);
    forall id | id in parts
      ensures BackLinkOk(parts, id) <==>
                (MeantBackLinkOk(parts, id) || PaddedSuperseder(parts, id)) && !ListedOnlyPadded(parts, id)
    {
      BackLinkAgrees(parts, id);
    }
    hide LinksOk, MeantLinks, BackLinkOk, MeantBackLinkOk, PaddedSuperseder, ListedOnlyPadded, Cyclic, CyclesArePadded,
      PaddedInputSuperseder, IsGenerated, TrimmedIds;
  }

  /** A sound lineage is rejected exactly when a superseded part is listed only with spaces around its id, or an input's own
      superseding id has spaces around it. */
  lemma WronglyRejectedExactly(parts: Index)
    requires TrimmedIds(parts)
    ensures MeantSound(parts) && !LineageSound(parts) <==>
              MeantSound(parts) && (PaddedListing(parts) || PaddedInputSuperseder(parts))
  {
    AcceptedExactly(parts);
    hide LineageSound, MeantLinks, MeantBackLinkOk, PaddedSuperseder, PaddedListing, PaddedInputSuperseder, TrimmedIds, MeantCycle, Walk;
  }

  lemma UnlistedBackLink(parts: Index, id: string)
    requires id in parts && !Listed(parts, id)
    ensures MeantBackLinkOk(parts, id) <==> MeantSuperseder(parts, id) == "" || MeantSuperseder(parts, id) !in parts
  {
    hide MeantInput, MeantSuperseder;
  }

  /** An unsound lineage is accepted exactly when it passes as written and has a cycle, which then goes through padded ids,
      or a padded superseding id that names a part of the job. */
  lemma WronglyAcceptedExactly(parts: Index)
    requires TrimmedIds(parts)
    ensures LineageSound(parts) && !MeantSound(parts) <==>
              LineageSound(parts) && (MeantCyclic(parts) || PaddedSupersederExists(parts))
  {
    AcceptedExactly(parts);
    hide LineageSound, MeantLinks, PaddedListing, TrimmedIds, CyclesArePadded, MeantCyclic;
    if LineageSound(parts) {
      forall id | id in parts && PaddedSuperseder(parts, id)
        ensures MeantBackLinkOk(parts, id) <==> MeantSuperseder(parts, id) == "" || MeantSuperseder(parts, id) !in parts
      {
        assert !Listed(parts, id);
        UnlistedBackLink(parts, id);
      }
    }
    hide MeantBackLinkOk, PaddedSuperseder, MeantSuperseder, Listed;
  }

  ghost predicate InputsTrimmed(parts: Index) {
    forall k, id | k in parts && id in parts[k].inputs :: Trim(id) == id
  }

  lemma TrimmedInputIsMeant(parts: Index, x: string, y: string)
    requires InputsTrimmed(parts)
    ensures y in InputsOf(parts, x) <==> MeantInput(parts, x, y)
  {
    hide Trim, IsGenerated;
    assert forall id | id in InputsOf(parts, x) :: Trim(id) == id;
  }

  lemma TrimmedWalkIsMeant(parts: Index, xs: seq<string>)
    requires InputsTrimmed(parts)
    ensures Walk(parts, xs) <==> MeantWalk(parts, xs)
  {
    hide InputsTrimmed, MeantInput, InputsOf;
    forall i | 0 <= i < |xs| - 1 ensures xs[i + 1] in InputsOf(parts, xs[i]) <==> MeantInput(parts, xs[i], xs[i + 1]) {
      TrimmedInputIsMeant(parts, xs[i], xs[i + 1]);
    }
  }

  /** When no input id is padded, the search rejects exactly the cyclic lineages. */
  lemma TrimmedCyclesAreFound(parts: Index)
    requires InputsTrimmed(parts)
    ensures Cyclic(parts) <==> MeantCyclic(parts)
  {
    hide InputsTrimmed, Walk, MeantWalk;
    forall xs: seq<string> ensures Walk(parts, xs) <==> MeantWalk(parts, xs) { TrimmedWalkIsMeant(parts, xs); }
    forall xs: seq<string> | |xs| >= 2 && xs[0] == xs[|xs| - 1] && Walk(parts, xs) ensures MeantCycle(parts, xs) {}
  }

  /** Two parts, each listing the other with a space in front. */
  function PaddedPair(): Index {
    map["a" := NewPart(Key("j", "a"), "s3", "in", "out", 0).(inputs := [" b"], generation := 1),
        "b" := NewPart(Key("j", "b"), "s3", "in", "out", 0).(inputs := [" a"], generation := 1)]
  }

  lemma PaddedPairInputs()
    ensures Trim(" a") == "a" && Trim(" b") == "b"
    ensures forall id :: InputsOf(PaddedPair(), id) == if id == "a" then [" b"] else if id == "b" then [" a"] else []
  {
    assert " a"[1..] == "a" && " b"[1..] == "b" && TrimLeft("a") == "a" && TrimLeft("b") == "b";
    hide Trim;
  }

  lemma PaddedPairLinks()
    ensures forall id | id in PaddedPair() :: LinksOk(PaddedPair(), PaddedPair()[id]) && BackLinkOk(PaddedPair(), id)
  {
    PaddedPairInputs();
    hide Trim;
  }

  lemma PaddedPairCycles()
    ensures MeantCyclic(PaddedPair())
  {
    PaddedPairInputs();
    hide PaddedPair, Trim, InputsOf;
    var parts, xs := PaddedPair(), ["a", "b", "a"];
    assert " b" in InputsOf(parts, "a") && " a" in InputsOf(parts, "b");
    assert MeantInput(parts, "a", "b") && MeantInput(parts, "b", "a");
    hide MeantInput;
    assert MeantWalk(parts, xs);
    assert MeantCycle(parts, xs);
  }

  lemma PaddedPairSearched()
    ensures !Cyclic(PaddedPair())
  {
    PaddedPairInputs();
    hide PaddedPair, Trim, InputsOf, Cyclic;
    var parts, order := PaddedPair(), [" a", " b", "a", "b"];
    assert order[..2] == [" a", " b"] && order[..3] == [" a", " b", "a"];
    assert Topological(parts, order);
    assert parts.Keys == {"a", "b"} by { PaddedPairKeys(); }
    FinishedMeansAcyclic(parts, order);
  }

  /** The link check trims input ids and the search does not, so a cycle through padded ids is accepted. */
  lemma PaddedCycleIsMissed()
    ensures LineageSound(PaddedPair()) && MeantCyclic(PaddedPair())
  {
    PaddedPairLinks();
    PaddedPairCycles();
    PaddedPairSearched();
    hide PaddedPair, LinksOk, BackLinkOk, Cyclic, MeantCyclic;
  }

  lemma PaddedPairKeys()
    ensures PaddedPair().Keys == {"a", "b"}
  {}

  /** An original superseded by a generated part that lists it with a space in front. */
  function PaddedInput(): Index {
    map["a" := NewPart(Key("j", "a"), "s3", "in", "out", 0).(supersededBy := "b"),
        "b" := NewPart(Key("j", "b"), "s3", "in", "out", 0).(inputs := [" a"], generation := 1)]
  }

  lemma PaddedInputRead()
    ensures Trim(" a") == "a" && Trim("a") == "a" && Trim("b") == "b" && Trim("") == ""
    ensures PaddedInput().Keys == {"a", "b"} && IsGenerated(PaddedInput()["b"]) && PaddedInput()["b"].inputs == [" a"]
    ensures PaddedInput()["a"].supersededBy == "b" && PaddedInput()["b"].supersededBy == ""
    ensures forall id :: InputsOf(PaddedInput(), id) == if id == "b" then [" a"] else []
  {
    assert " a"[1..] == "a" && TrimLeft("a") == "a";
    hide Trim;
  }

  lemma PaddedInputLinks()
    ensures MeantLinks(PaddedInput()) && MeantBackLinks(PaddedInput())
  {
    PaddedInputRead();
    var parts := PaddedInput();
    assert !IsGenerated(parts["a"]);
    assert " a" in InputsOf(parts, "b");
    hide PaddedInput, IsGenerated, Trim, InputsOf;
    assert MeantInput(parts, "b", "a");
    hide MeantInput;
    assert MeantLinkOk(parts, parts["b"], "a");
  }

  lemma PaddedInputAcyclic()
    ensures !MeantCyclic(PaddedInput())
  {
    PaddedInputRead();
    var parts := PaddedInput();
    hide PaddedInput, Trim, InputsOf;
    forall x, y | MeantInput(parts, x, y) ensures x == "b" && y == "a" {}
    hide MeantInput;
    forall xs: seq<string> ensures !MeantCycle(parts, xs) {
      if |xs| >= 2 && MeantWalk(parts, xs) {
        assert MeantInput(parts, xs[0], xs[0 + 1]);
        assert MeantInput(parts, xs[|xs| - 2], xs[|xs| - 2 + 1]);
      }
    }
  }

  /** The back-link check does not trim input ids, so a sound lineage with a padded one is rejected. */
  lemma PaddedInputIsRejected()
    ensures MeantSound(PaddedInput()) && !LineageSound(PaddedInput())
  {
    PaddedInputLinks();
    PaddedInputAcyclic();
    PaddedInputRead();
    hide MeantLinks, MeantBackLinks, MeantCyclic, PaddedInput, Trim, IsGenerated, Cyclic, InputsOf, LinksOk;
    assert !Blank("b") by { assert 'b' in "b" && !IsSpace('b'); }
    assert !BackLinkOk(PaddedInput(), "a");
  }

  // ---- every job the protocol leaves behind ----

  /** `parts` is the snapshot of a job's rows. */
  ghost predicate Lists(t: Table, job: string, parts: seq<Part>) {
    && DistinctIds(parts)
    && (forall p | p in parts :: p.key in t && t[p.key] == p && p.key.job == job)
    && (forall k | k in t && k.job == job :: t[k] in parts)
  }

  ghost predicate IdsTrimmed(t: Table) {
    forall k | k in t :: Trim(k.part) == k.part
  }

  lemma SnapshotLookup(t: Table, job: string, parts: seq<Part>, id: string)
    requires Lists(t, job, parts)
    ensures id in IndexOf(parts) <==> Key(job, id) in t
    ensures id in IndexOf(parts) ==> IndexOf(parts)[id] == t[Key(job, id)]
  {
    var index := IndexOf(parts);
    hide IndexOf;
    if id in index {
      assert index[id] in parts;
      assert index[id].key == Key(job, id);
    }
    if Key(job, id) in t { assert t[Key(job, id)] in parts; }
  }

  lemma {:induction false} GenerationFalls(t: Table, job: string, parts: seq<Part>, xs: seq<string>)
    requires Forest(t) && Lists(t, job, parts) && Walk(IndexOf(parts), xs) && |xs| >= 2
    ensures Key(job, xs[0]) in t && Key(job, xs[|xs| - 1]) in t
    ensures t[Key(job, xs[|xs| - 1])].generation < t[Key(job, xs[0])].generation
  {
    hide Forest, Lists, IndexOf, RowOk;
    assert xs[0 + 1] in InputsOf(IndexOf(parts), xs[0]);
    SnapshotLookup(t, job, parts, xs[0]);
    var x := Key(job, xs[0]);
    InputsFromForest(t, x, xs[1]);
    if |xs| > 2 {
      assert forall k | 0 <= k < |xs| - 2 :: xs[1..][k] == xs[k + 1];
      GenerationFalls(t, job, parts, xs[1..]);
    }
  }

  lemma InputsFromForest(t: Table, x: Key, id: string)
    requires Forest(t) && x in t && id in t[x].inputs
    ensures Key(x.job, id) in t && t[Key(x.job, id)].generation < t[x].generation
    ensures t[Key(x.job, id)].supersededBy == x.part && id != "" && id != x.part
  {
    assert InputsOk(t, x);
    assert RowOk(t[Key(x.job, id)]);
  }

  lemma ForestLinks(t: Table, job: string, parts: seq<Part>, k: string)
    requires Forest(t) && IdsTrimmed(t) && Lists(t, job, parts) && k in IndexOf(parts)
    ensures LinksOk(IndexOf(parts), IndexOf(parts)[k]) && BackLinkOk(IndexOf(parts), k)
  {
    var index := IndexOf(parts);
    hide Lists, RowOk, IndexOf, Trim, IsGenerated, Blank;
    SnapshotLookup(t, job, parts, k);
    var x := Key(job, k);
    assert InputsOk(t, x) && OutputOk(t, x);
    assert Blank("") by { EmptyIsBlank(); }
    hide Forest;
    forall i | 0 <= i < |t[x].inputs| ensures Trim(t[x].inputs[i]) == t[x].inputs[i] && LinkOk(index, t[x], t[x].inputs[i]) {
      InputsFromForest(t, x, t[x].inputs[i]);
      assert Key(job, t[x].inputs[i]) in t;
      SnapshotLookup(t, job, parts, t[x].inputs[i]);
    }
    if t[x].supersededBy != "" {
      SnapshotLookup(t, job, parts, t[x].supersededBy);
      ListedMeansGenerated(t[Key(job, t[x].supersededBy)], k);
    }
  }

  lemma EmptyIsBlank()
    ensures Blank("")
  {}

  lemma ListedMeansGenerated(p: Part, id: string)
    requires id in p.inputs
    ensures IsGenerated(p)
  {}

  lemma ForestIsAcyclic(t: Table, job: string, parts: seq<Part>)
    requires Forest(t) && Lists(t, job, parts)
    ensures !Cyclic(IndexOf(parts))
  {
    hide Forest, Lists, IndexOf, Walk;
    forall xs: seq<string> | |xs| >= 2 && Walk(IndexOf(parts), xs) ensures xs[0] != xs[|xs| - 1] {
      GenerationFalls(t, job, parts, xs);
    }
  }

  /** The validator never rejects a lineage that satisfies the protocol's invariant. */
  lemma ForestIsSound(t: Table, job: string, parts: seq<Part>)
    requires Forest(t) && IdsTrimmed(t) && Lists(t, job, parts)
    ensures LineageSound(IndexOf(parts))
  {
    hide Forest, Lists, IndexOf, LinksOk, BackLinkOk, Cyclic, IdsTrimmed, IsGenerated;
    forall k | k in IndexOf(parts) ensures LinksOk(IndexOf(parts), IndexOf(parts)[k]) && BackLinkOk(IndexOf(parts), k) {
      ForestLinks(t, job, parts, k);
    }
    ForestIsAcyclic(t, job, parts);
  }

  lemma {:induction false} JobHasOriginal(t: Table, k: Key)
    requires Forest(t) && k in t
    ensures exists o | o in t && o.job == k.job :: !IsGenerated(t[o])
    decreases t[k].generation
  {
    hide RowOk, OutputOk;
    if IsGenerated(t[k]) {
      assert InputsOk(t, k);
      var i :| i in t[k].inputs && Key(k.job, i) in t && t[Key(k.job, i)].generation + 1 == t[k].generation;
      JobHasOriginal(t, Key(k.job, i));
    }
  }

  ghost predicate NamesTrimmed(e: Event) {
    (e.Create? ==> Trim(e.part.key.part) == e.part.key.part) && (e.Complete? ==> Trim(e.outputId) == e.outputId)
  }

  lemma KeysAfter(t: Table, e: Event)
    ensures forall k | k in Apply(t, e) ::
              k in t || (e.Create? && k == e.part.key) || (e.Complete? && k.part == e.outputId)
  {
    hide Targets, Mutated, OutputOf, FreshOriginal, SourceMatches;
  }

  lemma {:induction false} RunKeepsIdsTrimmed(states: seq<System>, events: seq<Event>, i: nat)
    requires Run(states, events) && i < |states| && forall e | e in events :: NamesTrimmed(e)
    ensures IdsTrimmed(states[i].table)
  {
    hide Trim, Apply, Next;
    if i > 0 {
      RunKeepsIdsTrimmed(states, events, i - 1);
      RunStep(states, events, i - 1);
      hide Run;
      assert events[i - 1] in events && NamesTrimmed(events[i - 1]);
      KeysAfter(states[i - 1].table, events[i - 1]);
    }
  }

  /** A job's snapshot has an original, and its generated parts have inputs. */
  lemma SnapshotKinds(t: Table, job: string, parts: seq<Part>)
    requires Forest(t) && Lists(t, job, parts) && parts != []
    ensures exists p | p in parts :: !IsGenerated(p)
    ensures forall p | p in parts :: p.key.job == job && (IsGenerated(p) ==> p.inputs != [])
  {
    hide InputsOk, OutputOk, DistinctIds;
    assert parts[0] in parts;
    forall p | p in parts ensures p.key.job == job && (IsGenerated(p) ==> p.inputs != []) { assert RowOk(t[p.key]); }
    hide RowOk;
    JobHasOriginal(t, parts[0].key);
    var o :| o in t && o.job == job && !IsGenerated(t[o]);
    assert t[o] in parts;
  }

  lemma ListedResettable(t: Table, job: string, parts: seq<Part>)
    requires Lists(t, job, parts)
    requires forall p | p in parts :: p.key.job == job && (IsGenerated(p) ==> p.inputs != [])
    ensures AllResettable(job, parts) <==> forall p | p in parts :: !ImportStarted(p)
  {
    hide IsGenerated, ImportStarted, DistinctIds;
    assert DistinctIds(parts);
    hide Lists;
    forall i | 0 <= i < |parts| ensures PartResettable(job, parts[i]) <==> !ImportStarted(parts[i]) {
      assert parts[i] in parts;
    }
    hide PartResettable;
  }

  lemma ForestJobResets(t: Table, job: string, parts: seq<Part>, mode: ResetMode)
    requires Forest(t) && IdsTrimmed(t) && Lists(t, job, parts) && job != "" && parts != [] && !mode.UnknownMode?
    ensures Resettable(job, parts, mode) <==>
              && (forall p | p in parts :: !ImportStarted(p))
              && (mode.ResetCompaction? ==> forall p | p in parts && !IsGenerated(p) :: CompactionResettable(p))
  {
    ForestIsSound(t, job, parts);
    SnapshotKinds(t, job, parts);
    ListedResettable(t, job, parts);
    hide Forest, IsGenerated, LineageSound, ImportStarted, CompactionResettable, IndexOf, IdsTrimmed, AllResettable, Lists;
  }

  /** In every state of every run, any job with rows can be reset exactly while nothing of it has been imported;
      resetting to compaction also needs every original's rewrite to be complete. */
  lemma ReachableJobsReset(states: seq<System>, events: seq<Event>, i: nat, job: string, parts: seq<Part>, mode: ResetMode)
    requires Run(states, events) && i < |states| && forall e | e in events :: NamesTrimmed(e)
    requires job != "" && parts != [] && Lists(states[i].table, job, parts) && !mode.UnknownMode?
    ensures Resettable(job, parts, mode) <==>
              && (forall p | p in parts :: !ImportStarted(p))
              && (mode.ResetCompaction? ==> forall p | p in parts && !IsGenerated(p) :: CompactionResettable(p))
  {
    hide *;
    assert Forest(states[i].table) by { InvIsForest(states, events, i); }
    RunKeepsIdsTrimmed(states, events, i);
    ForestJobResets(states[i].table, job, parts, mode);
  }

  lemma InvIsForest(states: seq<System>, events: seq<Event>, i: nat)
    requires Run(states, events) && i < |states|
    ensures Forest(states[i].table)
  {
    hide Run, Forest;
    RunsKeepInv(states, events, i);
  }
}
