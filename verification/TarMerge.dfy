/** Merging the plans of several archives: no part comes from two archives and no name is extracted twice. */
module TarMerge {
  import opened TarNumbers
  import opened TarReader

  datatype Plan = Plan(path: Bytes, parts: seq<Bytes>, dirs: seq<Entry>, files: seq<Entry>)

  predicate Compatible(a: Entry, b: Entry) {
    a.name == b.name ==> a.DirEntry? && b.DirEntry?
  }

  /** Only directories may repeat a name. */
  ghost predicate NoConflict(entries: seq<Entry>) {
    forall i, j | 0 <= i < j < |entries| :: Compatible(entries[i], entries[j])
  }

  function AllEntries(plans: seq<Plan>): seq<Entry> {
    if plans == [] then [] else AllEntries(plans[..|plans| - 1]) + plans[|plans| - 1].dirs + plans[|plans| - 1].files
  }

  ghost predicate NoSharedPart(p: Plan, q: Plan) {
    forall part | part in p.parts && part in q.parts :: p.path == q.path
  }

  ghost predicate OneArchiveEach(plans: seq<Plan>) {
    forall i, j | 0 <= i < j < |plans| :: NoSharedPart(plans[i], plans[j])
  }

  // What the map and the two lists hold after `seen`.

  function KindsOf(seen: seq<Entry>): map<Bytes, bool> {
    if seen == [] then map[] else KindsOf(seen[..|seen| - 1])[seen[|seen| - 1].name := seen[|seen| - 1].DirEntry?]
  }

  function Files(seen: seq<Entry>): seq<Entry> {
    if seen == [] then []
    else Files(seen[..|seen| - 1]) + if seen[|seen| - 1].FileEntry? then [seen[|seen| - 1]] else []
  }

  function NewDirs(seen: seq<Entry>): seq<Entry> {
    if seen == [] then []
    else
      var front, last := seen[..|seen| - 1], seen[|seen| - 1];
      NewDirs(front) + if last.DirEntry? && last.name !in KindsOf(front) then [last] else []
  }

  lemma {:induction false} KindsAreNames(seen: seq<Entry>)
    ensures forall i | 0 <= i < |seen| :: seen[i].name in KindsOf(seen)
    ensures forall name | name in KindsOf(seen) :: exists i | 0 <= i < |seen| :: seen[i].name == name && seen[i].DirEntry? == KindsOf(seen)[name]
  {
    if seen != [] {
      var n := |seen| - 1;
      KindsAreNames(seen[..n]);
      forall name | name in KindsOf(seen)
        ensures exists i | 0 <= i < |seen| :: seen[i].name == name && seen[i].DirEntry? == KindsOf(seen)[name]
      {
        if name == seen[n].name {
          assert seen[n].name == name && seen[n].DirEntry? == KindsOf(seen)[name];
        } else {
          var i :| 0 <= i < n && seen[..n][i].name == name && seen[..n][i].DirEntry? == KindsOf(seen[..n])[name];
          assert seen[i] == seen[..n][i];
        }
      }
    }
  }

  /** The kind recorded for a name decides whether one more entry conflicts. */
  lemma KindDecides(seen: seq<Entry>, e: Entry)
    requires NoConflict(seen)
    ensures NoConflict(seen + [e]) <==> (e.name in KindsOf(seen) ==> KindsOf(seen)[e.name] && e.DirEntry?)
  {
    var next := seen + [e];
    KindsAreNames(seen);
    hide KindsOf;
    assert forall i | 0 <= i < |seen| :: next[i] == seen[i];
    assert next[|seen|] == e;
    if e.name in KindsOf(seen) {
      var i :| 0 <= i < |seen| && seen[i].name == e.name && seen[i].DirEntry? == KindsOf(seen)[e.name];
      assert Compatible(next[i], next[|seen|]) <==> KindsOf(seen)[e.name] && e.DirEntry?;
      forall j | 0 <= j < |seen| && seen[j].name == e.name ensures Compatible(seen[i], seen[j]) || i == j {
        assert i < j ==> Compatible(seen[i], seen[j]);
        assert j < i ==> Compatible(seen[j], seen[i]);
      }
    }
  }

  lemma {:induction false} ConflictStays(entries: seq<Entry>, n: nat)
    requires n <= |entries| && !NoConflict(entries[..n])
    ensures !NoConflict(entries)
  {
    var i, j :| 0 <= i < j < n && !Compatible(entries[..n][i], entries[..n][j]);
    assert !Compatible(entries[i], entries[j]);
  }

  lemma OneMore(entries: seq<Entry>, n: nat)
    requires n < |entries|
    ensures entries[..n + 1] == entries[..n] + [entries[n]]
    ensures var seen, e := entries[..n], entries[n];
      && KindsOf(entries[..n + 1]) == KindsOf(seen)[e.name := e.DirEntry?]
      && Files(entries[..n + 1]) == Files(seen) + (if e.FileEntry? then [e] else [])
      && NewDirs(entries[..n + 1]) == NewDirs(seen) + (if e.DirEntry? && e.name !in KindsOf(seen) then [e] else [])
  {
    assert entries[..n + 1][..n] == entries[..n];
  }

  /** The kinds loop: each directory is kept once, a file must have a name of its own. */
  method MergeEntries(entries: seq<Entry>) returns (ok: bool, dirs: seq<Entry>, files: seq<Entry>)
    ensures ok <==> NoConflict(entries)
    ensures ok ==> dirs == NewDirs(entries) && files == Files(entries)
  {
    hide NoConflict;
    var entryKinds: map<Bytes, bool> := map[];
    dirs, files := [], [];
    var i := 0;
    NoneConflict();
    while i < |entries|
      invariant 0 <= i <= |entries|
      invariant NoConflict(entries[..i])
      invariant entryKinds == KindsOf(entries[..i]) && dirs == NewDirs(entries[..i]) && files == Files(entries[..i])
    {
      var e := entries[i];
      OneMore(entries, i);
      KindDecides(entries[..i], e);
      if e.DirEntry? {
        if e.name in entryKinds && !entryKinds[e.name] {
          ConflictStays(entries, i + 1);
          return false, dirs, files;
        }
        if e.name !in entryKinds {
          entryKinds := entryKinds[e.name := true];
          dirs := dirs + [e];
        }
      } else {
        if e.name in entryKinds {
          ConflictStays(entries, i + 1);
          return false, dirs, files;
        }
        entryKinds := entryKinds[e.name := false];
        files := files + [e];
      }
      i := i + 1;
    }
    assert entries[..i] == entries;
    ok := true;
  }

  lemma NoneConflict()
    ensures NoConflict([])
  {}

  /** No two extracted files share a name, and none shares it with a directory. */
  lemma FilesAreDistinct(entries: seq<Entry>, i: nat, j: nat)
    requires NoConflict(entries) && i < j < |entries| && (entries[i].FileEntry? || entries[j].FileEntry?)
    ensures entries[i].name != entries[j].name
  {
    assert Compatible(entries[i], entries[j]);
  }

  /** The parts loop: a part may come from one archive only. */
  method MergeParts(plans: seq<Plan>) returns (ok: bool, parts: set<Bytes>)
    ensures ok <==> OneArchiveEach(plans)
    ensures ok ==> parts == set p, part | p in plans && part in p.parts :: part
  {
    var partSeen: map<Bytes, Bytes> := map[];
    var i := 0;
    while i < |plans|
      invariant 0 <= i <= |plans|
      invariant OneArchiveEach(plans[..i])
      invariant forall k, part | 0 <= k < i && part in plans[k].parts :: part in partSeen && partSeen[part] == plans[k].path
      invariant forall part | part in partSeen :: exists k | 0 <= k < i :: part in plans[k].parts
    {
      var conflict := set part | part in plans[i].parts && part in partSeen && partSeen[part] != plans[i].path;
      if conflict != {} {
        var part :| part in conflict;
        ghost var k :| 0 <= k < i && part in plans[k].parts;
        assert !NoSharedPart(plans[k], plans[i]);
        return false, {};
      }
      forall k | 0 <= k < i ensures NoSharedPart(plans[k], plans[i]) {
        forall part | part in plans[k].parts && part in plans[i].parts ensures plans[k].path == plans[i].path {
          assert part !in conflict;
        }
      }
      assert forall k | 0 <= k < i :: plans[..i + 1][k] == plans[..i][k];
      partSeen := partSeen + map part | part in plans[i].parts :: plans[i].path;
      i := i + 1;
    }
    assert plans[..i] == plans;
    return true, partSeen.Keys;
  }

  /** Plans merge exactly if every part comes from one archive and only directories repeat a name;
      then every file and every directory name of every archive is extracted once. */
  method MergePlans(plans: seq<Plan>) returns (ok: bool, parts: set<Bytes>, dirs: seq<Entry>, files: seq<Entry>)
    ensures ok <==> OneArchiveEach(plans) && NoConflict(AllEntries(plans))
    ensures ok ==> parts == set p, part | p in plans && part in p.parts :: part
    ensures ok ==> dirs == NewDirs(AllEntries(plans)) && files == Files(AllEntries(plans))
  {
    hide OneArchiveEach, NoConflict, NewDirs, Files;
    ok, parts := MergeParts(plans);
    dirs, files := [], [];
    if !ok { return; }
    var entries, i := [], 0;
    while i < |plans|
      invariant 0 <= i <= |plans| && entries == AllEntries(plans[..i])
    {
      assert plans[..i + 1][..i] == plans[..i];
      entries := entries + plans[i].dirs + plans[i].files;
      i := i + 1;
    }
    assert plans[..i] == plans;
    ok, dirs, files := MergeEntries(entries);
  }

  /** Each directory name is created once. */
  lemma {:induction false} DirsAreDistinct(entries: seq<Entry>)
    ensures forall i, j | 0 <= i < j < |NewDirs(entries)| :: NewDirs(entries)[i].name != NewDirs(entries)[j].name
    ensures forall d | d in NewDirs(entries) :: d.DirEntry? && d.name in KindsOf(entries)
  {
    if entries != [] { DirsAreDistinct(entries[..|entries| - 1]); }
  }

  /** No directory is left out. */
  lemma {:induction false} DirsAreCovered(entries: seq<Entry>, i: nat)
    requires NoConflict(entries) && i < |entries| && entries[i].DirEntry?
    ensures exists d | d in NewDirs(entries) :: d.name == entries[i].name
  {
    var n := |entries| - 1;
    var front := entries[..n];
    forall a, b | 0 <= a < b < n ensures Compatible(front[a], front[b]) { assert Compatible(entries[a], entries[b]); }
    if i < n {
      DirsAreCovered(front, i);
    } else if entries[n].name in KindsOf(front) {
      KindsAreNames(front);
      var k :| 0 <= k < n && front[k].name == entries[n].name;
      assert Compatible(entries[k], entries[n]);
      DirsAreCovered(front, k);
    }
  }
}
