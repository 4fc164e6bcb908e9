/** Sums of weights over finite sets. */
module Sums {
  ghost function Sum<T(!new)>(s: set<T>, w: T -> nat): nat
    decreases s
  {
    if s == {} then 0
    else
      var x :| x in s;
      w(x) + Sum(s - {x}, w)
  }

  lemma {:induction false} SumRemove<T(!new)>(s: set<T>, w: T -> nat, x: T)
    requires x in s
    ensures Sum(s, w) == w(x) + Sum(s - {x}, w)
    decreases s
  {
    var y :| y in s && Sum(s, w) == w(y) + Sum(s - {y}, w);
    if y != x {
      SumRemove(s - {y}, w, x);
      SumRemove(s - {x}, w, y);
      assert s - {y} - {x} == s - {x} - {y};
    }
  }

  lemma {:induction false} SumUnion<T(!new)>(a: set<T>, b: set<T>, w: T -> nat)
    requires a !! b
    ensures Sum(a + b, w) == Sum(a, w) + Sum(b, w)
    decreases a
  {
    if a == {} {
      assert a + b == b;
    } else {
      var x :| x in a;
      SumRemove(a, w, x);
      SumRemove(a + b, w, x);
      assert a + b - {x} == a - {x} + b;
      SumUnion(a - {x}, b, w);
    }
  }

  lemma {:induction false} SumAtMost<T(!new)>(s: set<T>, v: T -> nat, w: T -> nat)
    requires forall x | x in s :: v(x) <= w(x)
    ensures Sum(s, v) <= Sum(s, w)
    decreases s
  {
    if s != {} {
      var x :| x in s;
      SumRemove(s, v, x);
      SumRemove(s, w, x);
      SumAtMost(s - {x}, v, w);
    }
  }

  lemma SumLess<T(!new)>(s: set<T>, v: T -> nat, w: T -> nat, x: T)
    requires forall y | y in s :: v(y) <= w(y)
    requires x in s && v(x) < w(x)
    ensures Sum(s, v) < Sum(s, w)
  {
    SumRemove(s, v, x);
    SumRemove(s, w, x);
    SumAtMost(s - {x}, v, w);
  }

  // ---- runs of a listing ----

  ghost function RunSum<T(!new)>(xs: seq<T>, w: T -> nat): nat {
    if xs == [] then 0 else RunSum(xs[..|xs| - 1], w) + w(xs[|xs| - 1])
  }

  function Elements<T(==)>(xs: seq<T>): set<T> {
    set x | x in xs
  }

  ghost predicate Listing<T(!new)>(xs: seq<T>, w: T -> nat) {
    forall i, j | 0 <= i < j < |xs| :: xs[i] != xs[j] && w(xs[i]) <= w(xs[j])
  }

  lemma ElementsSplit<T(!new)>(xs: seq<T>)
    requires xs != []
    requires forall i, j | 0 <= i < j < |xs| :: xs[i] != xs[j]
    ensures var front, last := xs[..|xs| - 1], xs[|xs| - 1];
      last !in front && Elements(xs) == Elements(front) + {last} && Elements(xs) - {last} == Elements(front)
  {}

  lemma {:induction false} RunIsSum<T(!new)>(xs: seq<T>, w: T -> nat)
    requires forall i, j | 0 <= i < j < |xs| :: xs[i] != xs[j]
    ensures RunSum(xs, w) == Sum(Elements(xs), w) && |Elements(xs)| == |xs|
  {
    if xs == [] {
      assert Elements(xs) == {};
    } else {
      var front, last := xs[..|xs| - 1], xs[|xs| - 1];
      RunIsSum(front, w);
      ElementsSplit(xs);
      SumRemove(Elements(xs), w, last);
    }
  }

  lemma ListingFront<T(!new)>(xs: seq<T>, w: T -> nat, m: nat)
    requires Listing(xs, w) && 0 < m <= |xs|
    ensures Listing(xs[..|xs| - 1], w) && w(xs[m - 1]) <= w(xs[|xs| - 1])
    ensures xs[|xs| - 1] !in xs[..|xs| - 1]
    ensures Elements(xs) == Elements(xs[..|xs| - 1]) + {xs[|xs| - 1]}
  {
    ElementsSplit(xs);
  }

  lemma RunLast<T(!new)>(xs: seq<T>, w: T -> nat, m: nat)
    requires 0 < m <= |xs|
    ensures RunSum(xs[..m], w) == RunSum(xs[..m - 1], w) + w(xs[m - 1])
  {
    assert xs[..m][..m - 1] == xs[..m - 1];
  }

  lemma FrontRun<T(!new)>(xs: seq<T>, w: T -> nat, m: nat)
    requires xs != [] && m < |xs|
    ensures RunSum(xs[..|xs| - 1][..m], w) == RunSum(xs[..m], w)
  {
    assert xs[..|xs| - 1][..m] == xs[..m];
  }

  /** The m lightest elements weigh no more than any m elements. */
  lemma {:induction false} LightestWeighLeast<T(!new)>(xs: seq<T>, w: T -> nat, s: set<T>)
    requires Listing(xs, w) && s <= Elements(xs)
    ensures |s| <= |xs| && RunSum(xs[..|s|], w) <= Sum(s, w)
    decreases |xs|
  {
    if xs == [] {
      assert s == {};
    } else {
      var front, x := xs[..|xs| - 1], xs[|xs| - 1];
      ListingFront(xs, w, |xs|);
      InFront(xs, s);
      hide Elements, Listing, RunSum, Sum;
      var m := |s - {x}|;
      LightestWeighLeast(front, w, s - {x});
      FrontRun(xs, w, m);
      if x in s {
        SumRemove(s, w, x);
        ListingFront(xs, w, m + 1);
        RunLast(xs, w, m + 1);
      }
    }
  }

  lemma InFront<T(!new)>(xs: seq<T>, s: set<T>)
    requires xs != [] && s <= Elements(xs)
    ensures var x := xs[|xs| - 1];
      s - {x} <= Elements(xs[..|xs| - 1]) && (if x in s then |s| == |s - {x}| + 1 else s - {x} == s)
  {
    var x := xs[|xs| - 1];
    if x in s { assert s == s - {x} + {x}; }
  }

  lemma {:induction false} RunSplit<T(!new)>(a: seq<T>, b: seq<T>, w: T -> nat)
    ensures RunSum(a + b, w) == RunSum(a, w) + RunSum(b, w)
  {
    if b == [] {
      assert a + b == a;
    } else {
      assert (a + b)[..|a + b| - 1] == a + b[..|b| - 1];
      RunSplit(a, b[..|b| - 1], w);
    }
  }
}
