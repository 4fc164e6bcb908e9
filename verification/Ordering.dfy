/** Strict total orders, the least element and the ascending listing of a finite set,
    and the bytewise order on names. */
module Ordering {

  ghost predicate StrictTotal<T(!new)>(less: (T, T) -> bool) {
    && (forall x :: !less(x, x))
    && (forall x, y :: x == y || less(x, y) || less(y, x))
    && (forall x, y, z :: less(x, y) && less(y, z) ==> less(x, z))
  }

  predicate IsLeast<T(==)>(less: (T, T) -> bool, s: set<T>, m: T) {
    m in s && forall x | x in s :: x == m || less(m, x)
  }

  lemma LeastExists<T(!new)>(less: (T, T) -> bool, s: set<T>)
    requires StrictTotal(less) && s != {}
    ensures exists m :: IsLeast(less, s, m)
    decreases s
  {
    var x :| x in s;
    if s == {x} {
      assert IsLeast(less, s, x);
    } else {
      LeastExists(less, s - {x});
      var m :| IsLeast(less, s - {x}, m);
      var least := if less(x, m) then x else m;
      forall y | y in s ensures y == least || less(least, y) {
        assert y == x || y in s - {x};
      }
      assert IsLeast(less, s, least);
    }
  }

  /** The row that `ORDER BY ... LIMIT 1` returns. */
  function Least<T(!new, ==)>(less: (T, T) -> bool, s: set<T>): (m: T)
    requires StrictTotal(less) && s != {}
    ensures IsLeast(less, s, m)
  {
    LeastExists(less, s);
    var m :| m in s && IsLeast(less, s, m);
    m
  }

  ghost predicate Ascending<T>(less: (T, T) -> bool, xs: seq<T>) {
    forall i, j | 0 <= i < j < |xs| :: less(xs[i], xs[j])
  }

  /** The rows that `ORDER BY` returns. */
  function Sorted<T(!new, ==)>(less: (T, T) -> bool, s: set<T>): (xs: seq<T>)
    requires StrictTotal(less)
    ensures Ascending(less, xs)
    ensures |xs| == |s|
    ensures forall x :: x in xs <==> x in s
    decreases s
  {
    if s == {} then []
    else
      var m := Least(less, s);
      [m] + Sorted(less, s - {m})
  }

  // ---- names ----

  /** Bytewise lexicographic order, the order Go and the database use for names. */
  predicate NameLess(a: string, b: string) {
    if b == "" then false
    else if a == "" then true
    else if a[0] != b[0] then a[0] < b[0]
    else NameLess(a[1..], b[1..])
  }

  /** At the first place where they differ, `a` has the smaller character, or it has ended there. */
  ghost predicate Precedes(a: string, b: string) {
    exists n :: DiffersAt(a, b, n) && (n == |a| || a[n] < b[n])
  }

  predicate DiffersAt(a: string, b: string, n: int) {
    0 <= n <= |a| && n < |b| && a[..n] == b[..n] && (n < |a| ==> a[n] != b[n])
  }

  lemma {:induction false} NameLessPrecedes(a: string, b: string)
    ensures NameLess(a, b) <==> Precedes(a, b)
  {
    if b == "" {
    } else if a == "" || a[0] != b[0] {
      assert DiffersAt(a, b, 0);
      assert forall n | 0 < n <= |a| && n < |b| :: a[..n][0] == a[0] && b[..n][0] == b[0];
    } else {
      NameLessPrecedes(a[1..], b[1..]);
      PrecedesBehind(a, b);
    }
  }

  lemma PrecedesBehind(a: string, b: string)
    requires a != "" && b != "" && a[0] == b[0]
    ensures Precedes(a, b) <==> Precedes(a[1..], b[1..])
  {
    if n :| DiffersAt(a, b, n) && (n == |a| || a[n] < b[n]) {
      assert n > 0;
      assert a[1..][..n - 1] == a[..n][1..] && b[1..][..n - 1] == b[..n][1..];
      assert DiffersAt(a[1..], b[1..], n - 1);
    }
    if n :| DiffersAt(a[1..], b[1..], n) && (n == |a[1..]| || a[1..][n] < b[1..][n]) {
      assert a[..n + 1] == [a[0]] + a[1..][..n] && b[..n + 1] == [b[0]] + b[1..][..n];
      assert DiffersAt(a, b, n + 1);
    }
  }

  lemma {:induction false} NameIrreflexive(a: string)
    ensures !NameLess(a, a)
  {
    if a != "" { NameIrreflexive(a[1..]); }
  }

  lemma {:induction false} NameTrichotomy(a: string, b: string)
    ensures a == b || NameLess(a, b) || NameLess(b, a)
  {
    if a != "" && b != "" && a[0] == b[0] {
      NameTrichotomy(a[1..], b[1..]);
      assert a == [a[0]] + a[1..] && b == [b[0]] + b[1..];
    }
  }

  lemma {:induction false} NameTransitive(a: string, b: string, c: string)
    requires NameLess(a, b) && NameLess(b, c)
    ensures NameLess(a, c)
  {
    if a != "" && a[0] == b[0] && b[0] == c[0] { NameTransitive(a[1..], b[1..], c[1..]); }
  }

  lemma NameOrder()
    ensures StrictTotal(NameLess)
  {
    forall a ensures !NameLess(a, a) { NameIrreflexive(a); }
    forall a, b ensures a == b || NameLess(a, b) || NameLess(b, a) { NameTrichotomy(a, b); }
    forall a, b, c | NameLess(a, b) && NameLess(b, c) ensures NameLess(a, c) { NameTransitive(a, b, c); }
  }

  /** Names that share a prefix form one interval of the order. */
  lemma {:induction false} PrefixInterval(p: string, a: string, b: string, c: string)
    requires p <= a && p <= c
    requires NameLess(a, b) && NameLess(b, c)
    ensures p <= b
  {
    if p != "" {
      assert p[1..] <= a[1..] && p[1..] <= c[1..];
      PrefixInterval(p[1..], a[1..], b[1..], c[1..]);
      assert p == [p[0]] + p[1..] && b == [b[0]] + b[1..];
    }
  }
}
