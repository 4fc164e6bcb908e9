/** What the lineage invariant buys: expanding the live rows of a job down to original parts
    reaches every original exactly once. */
module Coverage {
  import opened PartState
  import opened Protocol
  import opened Lineage

  predicate Live(p: Part) { p.status != Superseded }

  /** The original parts whose data a row's artifact holds, with multiplicity. */
  ghost function Leaves(t: Table, k: Key): multiset<string>
    requires Forest(t) && k in t
    decreases t[k].generation, 1, 0
  {
    if !IsGenerated(t[k]) then multiset{k.part}
    else
      assert InputsOk(t, k);
      LeavesOf(t, k.job, t[k].inputs, t[k].generation)
  }

  ghost function LeavesOf(t: Table, job: string, ids: seq<string>, bound: nat): multiset<string>
    requires Forest(t)
    requires forall i | i in ids :: Key(job, i) in t && t[Key(job, i)].generation < bound
    decreases bound, 0, |ids|
  {
    if ids == [] then multiset{}
    else LeavesOf(t, job, ids[..|ids| - 1], bound) + Leaves(t, Key(job, ids[|ids| - 1]))
  }

  ghost predicate Bounded(t: Table, top: nat) {
    forall k | k in t :: t[k].generation <= top
  }

  lemma {:induction false} BoundBelow(t: Table, keys: set<Key>) returns (top: nat)
    requires keys <= t.Keys
    ensures forall k | k in keys :: t[k].generation <= top
    decreases keys
  {
    if keys == {} {
      top := 0;
    } else {
      var k :| k in keys;
      var below := BoundBelow(t, keys - {k});
      top := if t[k].generation > below then t[k].generation else below;
    }
  }

  lemma Above(t: Table, k: Key)
    requires Forest(t) && k in t && !Live(t[k])
    ensures var up := Key(k.job, t[k].supersededBy);
      && up in t && k.part in t[up].inputs && IsGenerated(t[up]) && t[k].generation < t[up].generation
  {
    assert RowOk(t[k]) && OutputOk(t, k);
    var up := Key(k.job, t[k].supersededBy);
    assert InputsOk(t, up);
    assert Key(up.job, k.part) == k;
  }

  /** The live row that now stands for row `k`: follow SupersededBy to its end. */
  ghost function Owner(t: Table, k: Key, top: nat): (o: Key)
    requires Forest(t) && k in t && Bounded(t, top)
    ensures o in t && o.job == k.job && Live(t[o])
    decreases top - t[k].generation
  {
    if Live(t[k]) then k
    else
      Above(t, k);
      Owner(t, Key(k.job, t[k].supersededBy), top)
  }

  /** `x` is on the SupersededBy chain that starts at `k`. */
  ghost predicate OnChain(t: Table, k: Key, x: Key, top: nat)
    requires Forest(t) && k in t && Bounded(t, top)
    decreases top - t[k].generation
  {
    k == x || (!Live(t[k]) && (Above(t, k); OnChain(t, Key(k.job, t[k].supersededBy), x, top)))
  }

  lemma {:induction false} ChainRises(t: Table, k: Key, x: Key, top: nat)
    requires Forest(t) && k in t && Bounded(t, top) && OnChain(t, k, x, top)
    ensures x in t && x.job == k.job && t[k].generation <= t[x].generation
    ensures k != x ==> t[k].generation < t[x].generation
    decreases top - t[k].generation
  {
    if k != x {
      Above(t, k);
      ChainRises(t, Key(k.job, t[k].supersededBy), x, top);
    }
  }

  lemma {:induction false} ChainExtends(t: Table, k: Key, x: Key, top: nat)
    requires Forest(t) && k in t && Bounded(t, top) && OnChain(t, k, x, top) && x in t && !Live(t[x])
    ensures OnChain(t, k, Key(x.job, t[x].supersededBy), top)
    decreases top - t[k].generation
  {
    Above(t, x);
    if k != x {
      Above(t, k);
      ChainExtends(t, Key(k.job, t[k].supersededBy), x, top);
    } else {
      Above(t, k);
      var up := Key(k.job, t[k].supersededBy);
      assert OnChain(t, up, up, top);
    }
  }

  /** The row just before `x` on the chain. */
  lemma {:induction false} ChainPredecessor(t: Table, k: Key, x: Key, top: nat) returns (p: Key)
    requires Forest(t) && k in t && Bounded(t, top) && OnChain(t, k, x, top) && k != x
    ensures OnChain(t, k, p, top) && p in t && p.job == x.job && t[p].supersededBy == x.part && !Live(t[p])
    decreases top - t[k].generation
  {
    Above(t, k);
    var up := Key(k.job, t[k].supersededBy);
    if up == x {
      p := k;
    } else {
      p := ChainPredecessor(t, up, x, top);
    }
  }

  /** Two rows on one chain are one above the other. */
  lemma {:induction false} ChainIsLinear(t: Table, k: Key, x: Key, y: Key, top: nat)
    requires Forest(t) && k in t && Bounded(t, top) && OnChain(t, k, x, top) && OnChain(t, k, y, top)
    requires x in t && y in t
    ensures OnChain(t, x, y, top) || OnChain(t, y, x, top)
    decreases top - t[k].generation
  {
    if k != x && k != y {
      Above(t, k);
      ChainIsLinear(t, Key(k.job, t[k].supersededBy), x, y, top);
    }
  }

  /** At most one input of a row lies on a given chain. */
  lemma SiblingsExclude(t: Table, k: Key, x: Key, y: Key, top: nat)
    requires Forest(t) && k in t && Bounded(t, top) && OnChain(t, k, x, top) && OnChain(t, k, y, top)
    requires x in t && y in t && x.job == y.job && t[x].supersededBy == t[y].supersededBy
    requires !Live(t[x]) && !Live(t[y])
    ensures x == y
  {
    hide Forest, RowOk, InputsOk, OutputOk;
    ChainIsLinear(t, k, x, y, top);
    if x != y {
      if OnChain(t, x, y, top) { SiblingNotAbove(t, x, y, top); } else { SiblingNotAbove(t, y, x, top); }
    }
  }

  lemma SiblingNotAbove(t: Table, x: Key, y: Key, top: nat)
    requires Forest(t) && x in t && y in t && Bounded(t, top) && x.job == y.job && x != y
    requires t[x].supersededBy == t[y].supersededBy && !Live(t[x]) && !Live(t[y])
    ensures !OnChain(t, x, y, top)
  {
    hide Forest, RowOk, InputsOk, OutputOk;
    Above(t, x);
    Above(t, y);
    if OnChain(t, x, y, top) {
      ChainRises(t, Key(x.job, t[x].supersededBy), y, top);
    }
  }

  /** Row `x` holds original `o` once if it is on the chain of `o`, and not at all otherwise. */
  lemma {:induction false} LeafMultiplicity(t: Table, o: Key, x: Key, top: nat)
    requires Forest(t) && o in t && x in t && o.job == x.job && !IsGenerated(t[o]) && Bounded(t, top)
    ensures Leaves(t, x)[o.part] == if OnChain(t, o, x, top) then 1 else 0
    decreases t[x].generation, 1, 0
  {
    hide RowOk;
    if !IsGenerated(t[x]) {
      if OnChain(t, o, x, top) && o != x {
        var p := ChainPredecessor(t, o, x, top);
        Above(t, p);
        assert false;
      }
    } else {
      assert InputsOk(t, x);
      LeavesMultiplicity(t, o, x, t[x].inputs, top);
      if OnChain(t, o, x, top) {
        var p := ChainPredecessor(t, o, x, top);
        Above(t, p);
        assert Key(x.job, p.part) == p;
      } else {
        forall i | i in t[x].inputs ensures !OnChain(t, o, Key(x.job, i), top) {
          if OnChain(t, o, Key(x.job, i), top) {
            InputSuperseded(t, x, i);
            ChainExtends(t, o, Key(x.job, i), top);
          }
        }
      }
    }
  }

  lemma InputSuperseded(t: Table, x: Key, i: string)
    requires Forest(t) && x in t && i in t[x].inputs
    ensures Key(x.job, i) in t && !Live(t[Key(x.job, i)]) && t[Key(x.job, i)].supersededBy == x.part
    ensures t[Key(x.job, i)].generation < t[x].generation
  {
    assert InputsOk(t, x);
    assert RowOk(t[x]) && RowOk(t[Key(x.job, i)]);
  }

  lemma {:induction false} LeavesMultiplicity(t: Table, o: Key, x: Key, ids: seq<string>, top: nat)
    requires Forest(t) && o in t && x in t && o.job == x.job && !IsGenerated(t[o]) && Bounded(t, top)
    requires ids <= t[x].inputs && Distinct(t[x].inputs)
    requires forall i | i in ids :: Key(x.job, i) in t && t[Key(x.job, i)].generation < t[x].generation
    ensures LeavesOf(t, x.job, ids, t[x].generation)[o.part] ==
            if exists i | i in ids :: OnChain(t, o, Key(x.job, i), top) then 1 else 0
    decreases t[x].generation, 0, |ids|
  {
    hide RowOk, InputsOk, OutputOk;
    if ids != [] {
      var front, last := ids[..|ids| - 1], ids[|ids| - 1];
      assert last in ids;
      LeavesMultiplicity(t, o, x, front, top);
      LeafMultiplicity(t, o, Key(x.job, last), top);
      assert forall i | i in ids :: i in front || i == last;
      if OnChain(t, o, Key(x.job, last), top) {
        forall i | i in front ensures !OnChain(t, o, Key(x.job, i), top) {
          if OnChain(t, o, Key(x.job, i), top) {
            InputSuperseded(t, x, i);
            InputSuperseded(t, x, last);
            NonEmptyId(t, x);
            SiblingsExclude(t, o, Key(x.job, i), Key(x.job, last), top);
            assert false;
          }
        }
      }
    }
  }

  lemma NonEmptyId(t: Table, x: Key)
    requires Forest(t) && x in t
    ensures x.part != ""
  {
    assert RowOk(t[x]);
  }

  lemma {:induction false} OwnerIsTheLiveEnd(t: Table, k: Key, x: Key, top: nat)
    requires Forest(t) && k in t && Bounded(t, top) && x in t && Live(t[x])
    ensures OnChain(t, k, x, top) <==> Owner(t, k, top) == x
    decreases top - t[k].generation
  {
    if !Live(t[k]) {
      Above(t, k);
      OwnerIsTheLiveEnd(t, Key(k.job, t[k].supersededBy), x, top);
    }
  }

  lemma {:induction false} LeavesAreOriginals(t: Table, x: Key, leaf: string)
    requires Forest(t) && x in t && leaf in Leaves(t, x)
    ensures Key(x.job, leaf) in t && !IsGenerated(t[Key(x.job, leaf)])
    decreases t[x].generation, 1, 0
  {
    hide RowOk;
    if IsGenerated(t[x]) {
      assert InputsOk(t, x);
      LeavesOfAreOriginals(t, x, t[x].inputs, leaf);
    }
  }

  lemma {:induction false} LeavesOfAreOriginals(t: Table, x: Key, ids: seq<string>, leaf: string)
    requires Forest(t) && x in t
    requires forall i | i in ids :: Key(x.job, i) in t && t[Key(x.job, i)].generation < t[x].generation
    requires leaf in LeavesOf(t, x.job, ids, t[x].generation)
    ensures Key(x.job, leaf) in t && !IsGenerated(t[Key(x.job, leaf)])
    decreases t[x].generation, 0, |ids|
  {
    var last := ids[|ids| - 1];
    if leaf in Leaves(t, Key(x.job, last)) {
      LeavesAreOriginals(t, Key(x.job, last), leaf);
    } else {
      LeavesOfAreOriginals(t, x, ids[..|ids| - 1], leaf);
    }
  }

  /** Every original is held once by exactly one live row of its job, and live rows hold nothing else. */
  ghost predicate Partitioned(t: Table)
    requires Forest(t)
  {
    && (forall o | o in t && !IsGenerated(t[o]) ::
          exists x | x in t && x.job == o.job && Live(t[x]) ::
            && Leaves(t, x)[o.part] == 1
            && forall y | y in t && y.job == o.job && Live(t[y]) && y != x :: Leaves(t, y)[o.part] == 0)
    && (forall x, leaf | x in t && leaf in Leaves(t, x) :: Key(x.job, leaf) in t && !IsGenerated(t[Key(x.job, leaf)]))
  }

  lemma ForestIsPartitioned(t: Table)
    requires Forest(t)
    ensures Partitioned(t)
  {
    hide InputsOk, OutputOk, RowOk, Forest, IsGenerated;
    var top := BoundBelow(t, t.Keys);
    forall o | o in t && !IsGenerated(t[o])
      ensures exists x | x in t && x.job == o.job && Live(t[x]) ::
            && Leaves(t, x)[o.part] == 1
            && forall y | y in t && y.job == o.job && Live(t[y]) && y != x :: Leaves(t, y)[o.part] == 0
    {
      var x := Owner(t, o, top);
      LeafMultiplicity(t, o, x, top);
      OwnerIsTheLiveEnd(t, o, x, top);
      forall y | y in t && y.job == o.job && Live(t[y]) && y != x ensures Leaves(t, y)[o.part] == 0 {
        LeafMultiplicity(t, o, y, top);
        OwnerIsTheLiveEnd(t, o, y, top);
      }
    }
    forall x, leaf | x in t && leaf in Leaves(t, x) ensures Key(x.job, leaf) in t && !IsGenerated(t[Key(x.job, leaf)]) {
      LeavesAreOriginals(t, x, leaf);
    }
  }

  /** In every state of every run the live rows of each job partition its original parts. */
  lemma EveryOriginalCoveredOnce(states: seq<System>, events: seq<Event>, i: nat)
    requires Run(states, events) && i < |states|
    ensures Forest(states[i].table) && Partitioned(states[i].table)
  {
    hide Forest, Partitioned, Run;
    RunsKeepInv(states, events, i);
    ForestIsPartitioned(states[i].table);
  }

  /** Two live rows of a job, so in particular two artifacts that are imported, never hold the same original. */
  lemma NothingImportedTwice(t: Table, x: Key, y: Key, o: string)
    requires Forest(t) && x in t && y in t && x.job == y.job && x != y && Live(t[x]) && Live(t[y])
    ensures Leaves(t, x)[o] == 0 || Leaves(t, y)[o] == 0
  {
    hide Forest, IsGenerated, Leaves;
    ForestIsPartitioned(t);
    if o in Leaves(t, x) {
      var k := Key(x.job, o);
      assert k in t && !IsGenerated(t[k]);
      var only :| only in t && only.job == k.job && Live(t[only]) && Leaves(t, only)[k.part] == 1 &&
        forall z | z in t && z.job == k.job && Live(t[z]) && z != only :: Leaves(t, z)[k.part] == 0;
      assert only == x;
    }
  }
}
