/** Pausing merges for a snapshot. Background merges and the memory-recovery observer step at any moment beside the
    compactor; joining the observer, stopping selection and draining leave nobody who could change what is frozen. */
module Snapshot {
  import opened InsertSettings

  const MIN_ADAPTIVE_MAX_PARTS := 2
  const MAX_COMPACT_MERGE_FAILURES := 3

  /** An active part and the attached parts whose rows it holds. */
  datatype ActivePart = ActivePart(name: string, blocks: set<string>)

  datatype Merge = Merge(sources: set<ActivePart>, result: ActivePart)

  /** How the observer's goroutine ended. */
  datatype Ending = Cancelled | Exhausted | Failed

  datatype Command = Stopping | Altering | Starting | Restoring

  /** Where the observer's goroutine is: at its poll, before one of the commands of a recovery, or over. */
  datatype Observer =
    | NotStarted
    | Polling(fanIn: nat)
    | Recovering(next: nat, command: Command)
    | Ended(ending: Ending)

  /** The destination table and the observer beside it. */
  datatype Table = Table(parts: set<ActivePart>, running: set<Merge>, stopped: bool, observer: Observer, cancelled: bool)

  predicate Over(o: Observer) {
    o.NotStarted? || o.Ended?
  }

  function Blocks(parts: set<ActivePart>): set<string> {
    set p, b | p in parts && b in p.blocks :: b
  }

  // ---- what happens in the background ----

  /** A merge that ClickHouse may select: of active parts that no running merge uses, into one part with their rows. */
  predicate Selectable(s: Table, m: Merge) {
    && m.sources != {} && m.sources <= s.parts && m.result.blocks == Blocks(m.sources)
    && forall r | r in s.running :: r.sources !! m.sources
  }

  predicate MergeStep(s: Table, t: Table) {
    || (!s.stopped && exists m | m in t.running :: Selectable(s, m) && t == s.(running := s.running + {m}))
    || (exists m | m in s.running ::
          || t == s.(running := s.running - {m}, parts := (s.parts - m.sources) + {m.result})
          || t == s.(running := s.running - {m}))
  }

  /** The observer ends on an error; a failed command may have taken effect, and a cancelled context is no error. */
  predicate GivesUp(s: Table, t: Table, stop: bool) {
    && (t.observer == Ended(Failed) || (s.cancelled && t.observer == Ended(Cancelled)))
    && (t.stopped == stop || t.stopped == s.stopped)
    && t == s.(stopped := t.stopped, observer := t.observer)
  }

  function NextFanIn(fanIn: nat): nat {
    Max(fanIn / 2, MIN_ADAPTIVE_MAX_PARTS)
  }

  predicate ObserverStep(s: Table, t: Table) {
    match s.observer
    case NotStarted => false
    case Ended(_) => false
    case Polling(f) =>
      || GivesUp(s, t, true)
      || (NextFanIn(f) < f && t == s.(observer := Recovering(NextFanIn(f), Stopping)))
      || (NextFanIn(f) >= f && t == s.(stopped := true, observer := Ended(Exhausted)))
    case Recovering(n, Stopping) =>
      t == s.(stopped := true, observer := Recovering(n, Altering)) || GivesUp(s, t, true)
    case Recovering(n, Altering) =>
      t == s.(observer := Recovering(n, Starting)) || t == s.(observer := Recovering(n, Restoring))
    case Recovering(n, Starting) =>
      t == s.(stopped := false, observer := Polling(n)) || GivesUp(s, t, false)
    case Recovering(n, Restoring) => GivesUp(s, t, false)
  }

  /** A merge step, an observer step, or a shutdown that cancels the phase. */
  predicate Background(s: Table, t: Table) {
    t == s || MergeStep(s, t) || ObserverStep(s, t) || t == s.(cancelled := true)
  }

  ghost predicate Backgrounds(run: seq<Table>, s: Table, t: Table) {
    |run| > 0 && run[0] == s && run[|run| - 1] == t && forall i | 0 <= i < |run| - 1 :: Background(run[i], run[i + 1])
  }

  /** Any number of background steps lead from `s` to `t`. */
  ghost predicate Reaches(s: Table, t: Table) {
    exists run :: Backgrounds(run, s, t)
  }

  lemma ReachesSelf(s: Table)
    ensures Reaches(s, s)
  {
    assert Backgrounds([s], s, s);
  }

  lemma ReachesMore(s: Table, t: Table, u: Table)
    requires Reaches(s, t) && Background(t, u)
    ensures Reaches(s, u)
  {
    hide Background;
    var run :| Backgrounds(run, s, t);
    var longer := run + [u];
    forall i | 0 <= i < |longer| - 1 ensures Background(longer[i], longer[i + 1]) {
      assert longer[i] == run[i];
      if i + 1 < |run| { assert longer[i + 1] == run[i + 1]; }
    }
    assert Backgrounds(longer, s, u);
  }

  // ---- merges keep the rows ----

  /** Every attached part is in one active part, and running merges use different active parts. */
  ghost predicate Sound(s: Table) {
    && (forall p | p in s.parts :: p.blocks != {})
    && (forall p, q | p in s.parts && q in s.parts && p != q :: p.blocks !! q.blocks)
    && (forall m | m in s.running :: m.sources != {} && m.sources <= s.parts && m.result.blocks == Blocks(m.sources))
    && (forall m, n | m in s.running && n in s.running && m != n :: m.sources !! n.sources)
  }

  /** The rows are still each in one active part, and there are no more parts than before. */
  ghost predicate KeepsRows(s: Table, t: Table) {
    Sound(s) ==> Sound(t) && Blocks(t.parts) == Blocks(s.parts) && |t.parts| <= |s.parts|
  }

  lemma MergedBlocks(parts: set<ActivePart>, sources: set<ActivePart>, result: ActivePart)
    requires sources <= parts && result.blocks == Blocks(sources)
    ensures Blocks((parts - sources) + {result}) == Blocks(parts)
  {
    forall b ensures b in Blocks((parts - sources) + {result}) <==> b in Blocks(parts) {
      if b in Blocks(parts) {
        var p :| p in parts && b in p.blocks;
        if p in sources { assert b in result.blocks; } else { assert p in (parts - sources) + {result}; }
      }
      if b in Blocks((parts - sources) + {result}) {
        var p :| p in (parts - sources) + {result} && b in p.blocks;
        if p == result { assert b in Blocks(sources); }
      }
    }
  }

  lemma ApartFromMerged(parts: set<ActivePart>, sources: set<ActivePart>, q: ActivePart)
    requires forall p | p in parts && p != q :: p.blocks !! q.blocks
    requires sources <= parts && q !in sources
    ensures Blocks(sources) !! q.blocks
  {
    forall b | b in Blocks(sources) ensures b !in q.blocks {
      var p :| p in sources && b in p.blocks;
    }
  }

  lemma MergedCount(parts: set<ActivePart>, sources: set<ActivePart>, result: ActivePart)
    requires sources <= parts && sources != {}
    ensures |(parts - sources) + {result}| <= |parts|
  {
    var p :| p in sources;
    FewerParts(parts - sources, parts - {p});
  }

  lemma MergedIsNonEmpty(sources: set<ActivePart>)
    requires sources != {} && forall p | p in sources :: p.blocks != {}
    ensures Blocks(sources) != {}
  {
    var p :| p in sources;
    var b :| b in p.blocks;
    assert b in Blocks(sources);
  }

  lemma FinishKeepsRows(s: Table, m: Merge)
    requires Sound(s) && m in s.running
    ensures KeepsRows(s, s.(running := s.running - {m}, parts := (s.parts - m.sources) + {m.result}))
  {
    hide Blocks;
    MergedBlocks(s.parts, m.sources, m.result);
    MergedCount(s.parts, m.sources, m.result);
    MergedIsNonEmpty(m.sources);
    forall q | q in s.parts - m.sources ensures q.blocks !! m.result.blocks {
      ApartFromMerged(s.parts, m.sources, q);
    }
  }

  lemma FewerParts(a: set<ActivePart>, b: set<ActivePart>)
    requires a <= b
    ensures |a| <= |b|
  {
    assert b == a + (b - a);
  }

  lemma SelectKeepsRows(s: Table, m: Merge)
    requires Selectable(s, m)
    ensures KeepsRows(s, s.(running := s.running + {m}))
  {
    hide Blocks;
  }

  lemma SameMergesKeepRows(s: Table, t: Table)
    requires t.parts == s.parts && t.running <= s.running
    ensures KeepsRows(s, t)
  {
    hide Blocks;
  }

  lemma ObserverKeepsMerges(s: Table, t: Table)
    requires ObserverStep(s, t)
    ensures t.parts == s.parts && t.running == s.running
  {}

  lemma BackgroundKeepsRows(s: Table, t: Table)
    requires Background(s, t)
    ensures KeepsRows(s, t)
  {
    hide ObserverStep, KeepsRows, Selectable, Sound;
    if ObserverStep(s, t) { ObserverKeepsMerges(s, t); }
    if t.parts == s.parts && t.running <= s.running {
      SameMergesKeepRows(s, t);
    } else if m :| m in t.running && Selectable(s, m) && t == s.(running := s.running + {m}) {
      SelectKeepsRows(s, m);
    } else {
      var m :| m in s.running && t == s.(running := s.running - {m}, parts := (s.parts - m.sources) + {m.result});
      UnsoundKeepsRows(s, t);
      if Sound(s) { FinishKeepsRows(s, m); }
    }
  }

  lemma UnsoundKeepsRows(s: Table, t: Table)
    ensures !Sound(s) ==> KeepsRows(s, t)
  {
    hide Sound;
  }

  lemma {:induction false} RunKeepsRows(run: seq<Table>, s: Table, t: Table)
    requires Backgrounds(run, s, t)
    ensures KeepsRows(s, t)
    decreases |run|
  {
    hide Background, Sound, Blocks;
    if |run| > 1 {
      assert Background(run[0], run[1]);
      BackgroundKeepsRows(s, run[1]);
      assert forall i | 0 <= i < |run| - 2 :: run[1..][i] == run[i + 1];
      RunKeepsRows(run[1..], run[1], t);
    }
  }

  /** Whatever happens in the background, no row is lost or doubled and the part count does not grow. */
  lemma BackgroundOnlyMerges(s: Table, t: Table)
    requires Reaches(s, t)
    ensures KeepsRows(s, t)
  {
    hide KeepsRows;
    var run :| Backgrounds(run, s, t);
    RunKeepsRows(run, s, t);
  }

  // ---- who can still change the parts ----

  /** Selection is stopped and running merges have drained. */
  predicate Drained(s: Table) {
    s.stopped && s.running == {}
  }

  /** The observer may yet issue START MERGES. */
  predicate MayRestart(o: Observer) {
    o.Recovering? || (o.Polling? && NextFanIn(o.fanIn) < o.fanIn)
  }

  predicate Quiet(s: Table) {
    Drained(s) && !MayRestart(s.observer)
  }

  lemma {:induction false} QuietRun(run: seq<Table>, s: Table, t: Table)
    requires Quiet(s) && Backgrounds(run, s, t)
    ensures Quiet(t) && t.parts == s.parts && (Over(s.observer) ==> t.observer == s.observer)
    decreases |run|
  {
    if |run| > 1 {
      assert Background(run[0], run[1]);
      assert forall i | 0 <= i < |run| - 2 :: run[1..][i] == run[i + 1];
      QuietRun(run[1..], run[1], t);
    }
  }

  /** Once quiet, the active part set cannot change, whatever happens in the background and for however long. */
  lemma QuietIsStable(s: Table, t: Table)
    requires Quiet(s) && Reaches(s, t)
    ensures Quiet(t) && t.parts == s.parts
  {
    hide Quiet;
    var run :| Backgrounds(run, s, t);
    QuietRun(run, s, t);
  }

  function StepsToStart(o: Observer): nat {
    match o
    case Polling(_) => 3
    case Recovering(_, Stopping) => 2
    case Recovering(_, Altering) => 1
    case _ => 0
  }

  /** An observer that may restart merges can get there. */
  lemma {:induction false} RestartReachable(s: Table)
    requires Drained(s) && MayRestart(s.observer)
    ensures exists t :: Reaches(s, t) && !t.stopped && t.parts == s.parts && t.running == {}
    decreases StepsToStart(s.observer), 0
  {
    match s.observer
    case Polling(f) => RestartLater(s, s.(observer := Recovering(NextFanIn(f), Stopping)));
    case Recovering(n, Stopping) => RestartLater(s, s.(observer := Recovering(n, Altering)));
    case Recovering(n, Altering) => RestartLater(s, s.(observer := Recovering(n, Starting)));
    case Recovering(n, Starting) => RestartNow(s, s.(stopped := false, observer := Polling(n)));
    case Recovering(n, Restoring) => RestartNow(s, s.(stopped := false, observer := Ended(Failed)));
  }

  lemma RestartNow(s: Table, t: Table)
    requires Background(s, t) && !t.stopped && t.parts == s.parts && t.running == {}
    ensures Reaches(s, t)
  {
    ReachesSelf(s);
    ReachesMore(s, s, t);
  }

  lemma {:induction false} RestartLater(s: Table, next: Table)
    requires Background(s, next) && Drained(next) && MayRestart(next.observer) && next.parts == s.parts
    ensures exists t :: Reaches(s, t) && !t.stopped && t.parts == s.parts && t.running == {}
    decreases StepsToStart(next.observer), 1
  {
    RestartReachable(next);
    var t :| Reaches(next, t) && !t.stopped && t.parts == next.parts && t.running == {};
    ReachesFirst(s, next, t);
  }

  lemma ReachesFirst(s: Table, next: Table, t: Table)
    requires Background(s, next) && Reaches(next, t)
    ensures Reaches(s, t)
  {
    hide Background;
    var run :| Backgrounds(run, next, t);
    var longer := [s] + run;
    forall i | 0 <= i < |longer| - 1 ensures Background(longer[i], longer[i + 1]) {
      if i > 0 { assert longer[i] == run[i - 1] && longer[i + 1] == run[i]; }
    }
    assert Backgrounds(longer, s, t);
  }

  lemma SelectionChanges(s: Table, t: Table, p: ActivePart)
    requires Reaches(s, t) && !t.stopped && t.running == {} && p in t.parts && t.parts == s.parts
    ensures exists u :: Reaches(s, u) && u.parts != s.parts
  {
    var m := Merge({p}, ActivePart(p.name + "1", p.blocks));
    assert Blocks({p}) == p.blocks;
    var selected := t.(running := t.running + {m});
    assert m in selected.running && Selectable(t, m);
    assert MergeStep(t, selected);
    ReachesMore(s, t, selected);
    var u := selected.(running := selected.running - {m}, parts := (selected.parts - m.sources) + {m.result});
    assert MergeStep(selected, u);
    ReachesMore(s, selected, u);
    assert m.result != p by { assert |m.result.name| != |p.name|; }
    assert p !in u.parts;
  }

  /** Exactly when a stopped and drained table is stable: when the observer cannot issue START MERGES any more. */
  lemma StableExactlyWhenNobodyRestarts(s: Table)
    requires Drained(s) && s.parts != {}
    ensures (forall t | Reaches(s, t) :: t.parts == s.parts) <==> !MayRestart(s.observer)
  {
    if MayRestart(s.observer) {
      RestartReachable(s);
      var t :| Reaches(s, t) && !t.stopped && t.parts == s.parts && t.running == {};
      var p :| p in s.parts;
      SelectionChanges(s, t, p);
    } else {
      forall t | Reaches(s, t) ensures t.parts == s.parts { QuietIsStable(s, t); }
    }
  }

  /** Draining is necessary too: a stopped table with a running merge of an active part can change. */
  lemma RunningMergeCanFinish(s: Table, m: Merge, p: ActivePart)
    requires m in s.running && p in m.sources && p in s.parts && p != m.result
    ensures exists t :: Reaches(s, t) && t.parts != s.parts
  {
    var t := s.(running := s.running - {m}, parts := (s.parts - m.sources) + {m.result});
    assert MergeStep(s, t);
    ReachesSelf(s);
    ReachesMore(s, s, t);
    assert p !in t.parts;
  }

  lemma {:induction false} StoppedRun(run: seq<Table>, s: Table, t: Table)
    requires s.stopped && Over(s.observer) && Backgrounds(run, s, t)
    ensures t.stopped && t.observer == s.observer
    decreases |run|
  {
    if |run| > 1 {
      assert Background(run[0], run[1]);
      assert forall i | 0 <= i < |run| - 2 :: run[1..][i] == run[i + 1];
      StoppedRun(run[1..], run[1], t);
    }
  }

  lemma StoppedStays(s: Table, t: Table)
    requires s.stopped && Over(s.observer) && Reaches(s, t)
    ensures t.stopped && t.observer == s.observer
  {
    hide Over;
    var run :| Backgrounds(run, s, t);
    StoppedRun(run, s, t);
  }

  lemma KeepsRowsOn(s: Table, t: Table, u: Table)
    requires KeepsRows(s, t) && KeepsRows(t, u)
    ensures KeepsRows(s, u)
  {
    hide Sound, Blocks;
  }

  // ---- the commands ----

  class Destination {
    var table: Table

    /** No observer exists before the compactor starts one. */
    constructor (parts: set<ActivePart>, running: set<Merge>, stopped: bool)
      ensures table == Table(parts, running, stopped, NotStarted, false)
    {
      table := Table(parts, running, stopped, NotStarted, false);
    }

    /** Time passes: any background steps happen. With `others` none of them is the observer's. */
    method Wait(others: bool)
      modifies this
      ensures Reaches(old(table), table) && KeepsRows(old(table), table)
      ensures others ==> table.observer == old(table.observer) && table.stopped == old(table.stopped)
    {
      hide Reaches, KeepsRows, MergeStep, ObserverStep;
      ReachesSelf(table);
      BackgroundOnlyMerges(table, table);
      var more: bool, rounds: nat := *, *;
      while more && rounds > 0
        invariant Reaches(old(table), table) && KeepsRows(old(table), table)
        invariant others ==> table.observer == old(table.observer) && table.stopped == old(table.stopped)
        decreases rounds
      {
        var next: Table := *;
        if Background(table, next) && (others ==> next.observer == table.observer && next.stopped == table.stopped) {
          ReachesMore(old(table), table, next);
          BackgroundOnlyMerges(old(table), next);
          table := next;
        }
        more, rounds := *, rounds - 1;
      }
    }

    /** SYSTEM STOP MERGES or SYSTEM START MERGES by the compactor; a failed command may have taken effect. */
    method SetStopped(stop: bool) returns (ok: bool)
      modifies this
      ensures table == old(table) || table == old(table).(stopped := stop)
      ensures ok ==> table == old(table).(stopped := stop)
      ensures KeepsRows(old(table), table)
    {
      var effective: bool := *;
      ok := *;
      if ok || effective { table := table.(stopped := stop); }
      SameMergesKeepRows(old(table), table);
    }

    /** Stop selection, then poll until the running merges have drained; on any failure try to start merges again. */
    method PauseDestinationMerges(polls: nat) returns (ok: bool)
      modifies this
      ensures ok && Over(old(table.observer)) ==> Drained(table)
      ensures Over(old(table.observer)) ==> table.observer == old(table.observer)
      ensures KeepsRows(old(table), table)
    {
      hide Over, KeepsRows, Reaches;
      ok := SetStopped(true);
      var left := polls;
      while ok && left > 0
        invariant ok && Over(old(table.observer)) ==> table.stopped
        invariant Over(old(table.observer)) ==> table.observer == old(table.observer)
        invariant KeepsRows(old(table), table)
        decreases left
      {
        ghost var before := table;
        Wait(false);
        KeepsRowsOn(old(table), before, table);
        if Over(old(table.observer)) { StoppedStays(before, table); }
        ok := *;
        if ok && |table.running| == 0 { return; }
        left := left - 1;
      }
      ghost var before := table;
      var resumed := SetStopped(false);
      KeepsRowsOn(old(table), before, table);
      ok := false;
    }

    /** The compactor's part of starting the observer's goroutine. */
    method StartObserver(fanIn: nat)
      modifies this
      ensures table == old(table).(observer := Polling(fanIn), cancelled := false) && KeepsRows(old(table), table)
    {
      table := table.(observer := Polling(fanIn), cancelled := false);
      SameMergesKeepRows(old(table), table);
    }

    /** Cancel the observer and receive its result: this ends only when the observer has ended. */
    method JoinObserver(patience: nat) returns (ending: set<Ending>)
      modifies this
      ensures ending != {} ==> table.observer.Ended? && ending == {table.observer.ending}
      ensures KeepsRows(old(table), table)
    {
      hide KeepsRows, Reaches;
      table := table.(cancelled := true);
      SameMergesKeepRows(old(table), table);
      var left := patience;
      while !table.observer.Ended? && left > 0
        invariant KeepsRows(old(table), table)
        decreases left
      {
        ghost var before := table;
        Wait(false);
        KeepsRowsOn(old(table), before, table);
        left := left - 1;
      }
      ending := if table.observer.Ended? then {table.observer.ending} else {};
    }

    // ---- the observer's goroutine ----

    /** What the observer reports when a command fails. */
    method GiveUp(stop: bool) returns (ghost took: bool)
      requires table.observer.Polling? || (table.observer.Recovering? && table.observer.command != Altering)
      requires stop <==> table.observer.Polling? || table.observer.command == Stopping
      modifies this
      ensures ObserverStep(old(table), table) && table.observer.Ended? && !table.observer.ending.Exhausted?
      ensures table.stopped == if took then stop else old(table.stopped)
    {
      var effective: bool := *;
      took := effective;
      table := table.(stopped := if effective then stop else table.stopped,
                      observer := Ended(if table.cancelled then Cancelled else Failed));
    }

    /** Stop merges, lower the fan-in, start merges again, with background merges between the commands. Success leaves
        selection running; otherwise selection is as the last STOP or START that took effect left it. */
    method RecoverCompactMergeAfterMemoryFailure() returns (ok: bool, ghost stopTook: bool, ghost startTook: bool)
      requires table.observer.Recovering? && table.observer.command == Stopping
      modifies this
      ensures Reaches(old(table), table) && KeepsRows(old(table), table)
      ensures ok ==> table.observer == Polling(old(table.observer.next)) && !table.stopped
      ensures !ok ==> table.observer.Ended? && !table.observer.ending.Exhausted?
      ensures table.stopped == if startTook then false else if stopTook then true else old(table.stopped)
    {
      hide Reaches, KeepsRows;
      ghost var start := table;
      var next := table.observer.next;
      var worked: bool := *;
      ok, startTook := false, false;
      ReachesSelf(start);
      if !worked {
        stopTook := GiveUp(true);
        ReachesMore(start, start, table);
        BackgroundOnlyMerges(start, table);
        return;
      }
      stopTook := true;
      table := table.(stopped := true, observer := Recovering(next, Altering));
      ReachesMore(start, start, table);
      ghost var stopped := table;
      Wait(true);
      ReachesOn(start, stopped, table);
      ghost var waited := table;
      var altered: bool := *;
      table := table.(observer := Recovering(next, if altered then Starting else Restoring));
      ReachesMore(start, waited, table);
      ghost var commanded := table;
      Wait(true);
      ReachesOn(start, commanded, table);
      ghost var last := table;
      worked := *;
      if altered && worked {
        ok, startTook := true, true;
        table := table.(stopped := false, observer := Polling(next));
      } else {
        startTook := GiveUp(false);
      }
      ReachesMore(start, last, table);
      BackgroundOnlyMerges(start, table);
    }

    /** The observer's loop: whenever a poll shows new memory failures, halve the fan-in once and restart merges; at the
        minimum, stop merges and give up; `failures` are the other failures it saw, and the third ends it. All it does
        are observer steps, so it is part of every compactor's background. */
    method ObserveCompactProgress(polls: nat) returns (ghost recoveries: nat, ghost failures: seq<nat>, ghost limited: bool)
      requires table.observer.Polling?
      modifies this
      ensures (forall i | 0 <= i < |failures| - 1 :: failures[i] < 3)
      ensures limited <==> failures != [] && failures[|failures| - 1] >= 3
      ensures limited ==> table.observer.Ended? && !table.observer.ending.Exhausted?
      ensures Reaches(old(table), table) && KeepsRows(old(table), table)
      ensures table.observer.Polling? || table.observer.Ended?
      ensures recoveries <= Halvings(old(table.observer.fanIn), MIN_ADAPTIVE_MAX_PARTS)
      ensures table.observer == Ended(Exhausted) ==>
                table.stopped && recoveries == Halvings(old(table.observer.fanIn), MIN_ADAPTIVE_MAX_PARTS)
    {
      hide Reaches, KeepsRows, ObserverStep;
      ghost var start := table;
      recoveries, failures, limited := 0, [], false;
      var handled: nat, left := 0, polls;
      ReachesSelf(start);
      while left > 0
        invariant table.observer.Polling? && Reaches(start, table)
        invariant !limited && forall i | 0 <= i < |failures| :: failures[i] < 3
        invariant recoveries + Halvings(table.observer.fanIn, MIN_ADAPTIVE_MAX_PARTS) ==
                  Halvings(start.observer.fanIn, MIN_ADAPTIVE_MAX_PARTS)
        decreases left
      {
        ghost var before := table;
        Wait(true);
        ReachesOn(start, before, table);
        ghost var polled := table;
        var readable: bool, memoryFailures: nat, otherFailures: nat := *, *, *;
        if !readable {
          ghost var took := GiveUp(true);
          ReachesMore(start, polled, table);
          break;
        }
        if memoryFailures > handled {
          var next := NextFanIn(table.observer.fanIn);
          if next >= table.observer.fanIn {
            StopAtMinimum();
            ReachesMore(start, polled, table);
            break;
          }
          FanInHalves(table.observer.fanIn);
          BeginRecovery(next);
          ReachesMore(start, polled, table);
          ghost var begun := table;
          ghost var stopTook, startTook;
          var ok;
          ok, stopTook, startTook := RecoverCompactMergeAfterMemoryFailure();
          ReachesOn(start, begun, table);
          if !ok { break; }
          recoveries, handled := recoveries + 1, memoryFailures;
        }
        failures := failures + [otherFailures];
        if otherFailures >= MAX_COMPACT_MERGE_FAILURES {
          limited := true;
          ghost var last := table;
          ghost var took := GiveUp(true);
          ReachesMore(start, last, table);
          break;
        }
        left := left - 1;
      }
      BackgroundOnlyMerges(start, table);
    }

    method BeginRecovery(next: nat)
      requires table.observer.Polling? && next == NextFanIn(table.observer.fanIn) < table.observer.fanIn
      modifies this
      ensures ObserverStep(old(table), table) && table == old(table).(observer := Recovering(next, Stopping))
    {
      table := table.(observer := Recovering(next, Stopping));
    }

    /** At the minimum fan-in the observer stops merges for good; a failure to do so is an error. */
    method StopAtMinimum()
      requires table.observer.Polling? && NextFanIn(table.observer.fanIn) >= table.observer.fanIn
      modifies this
      ensures ObserverStep(old(table), table) && table.observer.Ended?
      ensures table.observer.ending.Exhausted? ==> table.stopped
    {
      var worked: bool := *;
      if worked {
        table := table.(stopped := true, observer := Ended(Exhausted));
      } else {
        ghost var took := GiveUp(true);
      }
    }
  }

  lemma ReachesOn(s: Table, t: Table, u: Table)
    requires Reaches(s, t) && Reaches(t, u)
    ensures Reaches(s, u)
  {
    var run :| Backgrounds(run, t, u);
    ReachesRun(s, t, run, u);
  }

  lemma {:induction false} ReachesRun(s: Table, t: Table, run: seq<Table>, u: Table)
    requires Reaches(s, t) && Backgrounds(run, t, u)
    ensures Reaches(s, u)
    decreases |run|
  {
    hide Background, Reaches;
    if |run| > 1 {
      assert Background(run[0], run[1]);
      ReachesMore(s, t, run[1]);
      assert forall i | 0 <= i < |run| - 2 :: run[1..][i] == run[i + 1];
      ReachesRun(s, run[1], run[1..], u);
    }
  }

  lemma FanInExactly(fanIn: nat)
    ensures NextFanIn(fanIn) == if fanIn >= 4 then fanIn / 2 else 2
  {}

  lemma FanInHalves(fanIn: nat)
    requires NextFanIn(fanIn) < fanIn
    ensures Halvings(fanIn, MIN_ADAPTIVE_MAX_PARTS) == 1 + Halvings(NextFanIn(fanIn), MIN_ADAPTIVE_MAX_PARTS)
  {}

  // ---- the compactor ----

  /** What Compact reports: the parts it measured, and the parts it froze if their number fell. */
  datatype Outcome = Error | NotReduced(measured: set<ActivePart>) | Reduced(measured: set<ActivePart>, frozen: set<ActivePart>)

  /** How the wait for merges came back: settled, cut short by a deadline, shutdown or request, or failed. */
  datatype WaitResult = Settled | CutShort | WaitFailed

  /** Compact from the start of the observer to the result: wait for merges with the observer running, cancel and join it,
      pause, measure, freeze if the part count fell, resume. */
  method Compact(parts: set<ActivePart>, running: set<Merge>, stopped: bool, inputCount: nat, waitForMerges: bool, fanIn: nat,
                 patience: nat)
    returns (outcome: Outcome, final: Table)
    ensures !outcome.Error? ==> !final.stopped
    ensures outcome.Reduced? ==> outcome.frozen == outcome.measured && |outcome.frozen| < inputCount
    ensures outcome.NotReduced? ==> |outcome.measured| == inputCount
    ensures outcome.Reduced? && Sound(Table(parts, running, stopped, NotStarted, false)) ==>
              && Blocks(outcome.frozen) == Blocks(parts)
              && forall p, q | p in outcome.frozen && q in outcome.frozen && p != q :: p.blocks !! q.blocks
  {
    hide Reaches, KeepsRows, Sound, Blocks, MayRestart;
    var d := new Destination(parts, running, stopped);
    ghost var start := d.table;
    SameMergesKeepRows(start, start);
    if waitForMerges {
      d.StartObserver(fanIn);
      ghost var observed := d.table;
      d.Wait(false);
      KeepsRowsOn(start, observed, d.table);
      var waited: WaitResult := *;
      ghost var before := d.table;
      var ending := d.JoinObserver(patience);
      KeepsRowsOn(start, before, d.table);
      if ending == {} || Failed in ending { return Error, d.table; }
      if waited.WaitFailed? && Exhausted !in ending { return Error, d.table; }
    }
    assert Over(d.table.observer);
    ghost var joined := d.table;
    var paused := d.PauseDestinationMerges(patience);
    KeepsRowsOn(start, joined, d.table);
    if !paused { return Error, d.table; }
    NobodyRestarts(d.table);
    ghost var quiet := d.table;
    outcome := MeasureAndFreeze(d, inputCount);
    if outcome.Reduced? { RowsKept(start, quiet); }
    final := d.table;
  }

  lemma NobodyRestarts(s: Table)
    requires Drained(s) && Over(s.observer)
    ensures Quiet(s)
  {}

  lemma RowsKept(s: Table, t: Table)
    requires KeepsRows(s, t)
    ensures Sound(s) ==> Blocks(t.parts) == Blocks(s.parts) && forall p, q | p in t.parts && q in t.parts && p != q :: p.blocks !! q.blocks
  {
    hide Blocks;
  }

  /** The commands between the pause and the result, any background steps in between. */
  method MeasureAndFreeze(d: Destination, inputCount: nat) returns (outcome: Outcome)
    requires Quiet(d.table)
    modifies d
    ensures !outcome.Error? ==> !d.table.stopped
    ensures outcome.Reduced? ==>
              outcome.frozen == outcome.measured == old(d.table.parts) && |outcome.frozen| < inputCount
    ensures outcome.NotReduced? ==> outcome.measured == old(d.table.parts) && |outcome.measured| == inputCount
  {
    hide Quiet, Reaches, KeepsRows;
    ghost var paused := d.table;
    d.Wait(false);
    QuietIsStable(paused, d.table);
    var measured := d.table.parts;
    outcome := NotReduced(measured);
    var readable: bool := *;
    if !readable || |measured| > inputCount {
      outcome := Error;
    } else if |measured| < inputCount {
      ghost var before := d.table;
      d.Wait(false);
      QuietIsStable(before, d.table);
      var reported: bool, froze: bool, uploaded: bool := *, *, *;
      var frozen := d.table.parts;
      d.Wait(false);
      outcome := if reported && froze && uploaded then Reduced(measured, frozen) else Error;
    }
    var resumed := d.SetStopped(false);
    if !resumed { outcome := Error; }
  }

  /** The tail of a rewrite: pause, measure, freeze what was produced, resume. No observer is ever started. */
  method FreezeRewritten(parts: set<ActivePart>, running: set<Merge>, stopped: bool, patience: nat)
    returns (ok: bool, measured: set<ActivePart>, frozen: set<ActivePart>, final: Table)
    ensures ok ==> !final.stopped
    ensures ok ==> frozen == measured
    ensures ok && Sound(Table(parts, running, stopped, NotStarted, false)) ==> Blocks(frozen) == Blocks(parts)
  {
    hide Quiet, Reaches, KeepsRows, Sound, Blocks, MayRestart;
    var d := new Destination(parts, running, stopped);
    ghost var start := d.table;
    measured, frozen := {}, {};
    ok := d.PauseDestinationMerges(patience);
    if !ok { return false, measured, frozen, d.table; }
    NobodyRestarts(d.table);
    ghost var paused := d.table;
    RowsKept(start, paused);
    d.Wait(false);
    QuietIsStable(paused, d.table);
    measured := d.table.parts;
    var readable: bool := *;
    if !readable {
      ok := false;
    } else if |measured| > 0 {
      ghost var before := d.table;
      d.Wait(false);
      QuietIsStable(before, d.table);
      frozen := d.table.parts;
      ok := *;
    }
    var resumed := d.SetStopped(false);
    ok := ok && resumed;
    final := d.table;
  }

  // ---- normalized output ----

  datatype PartitionParts = PartitionParts(partition: string, parts: nat)

  ghost predicate DistinctPartitions(xs: seq<PartitionParts>) {
    forall i, j | 0 <= i < j < |xs| :: xs[i].partition != xs[j].partition
  }

  function Partitions(xs: seq<PartitionParts>): set<string> {
    set x | x in xs :: x.partition
  }

  lemma {:induction false} PartitionsCount(xs: seq<PartitionParts>)
    requires DistinctPartitions(xs)
    ensures |Partitions(xs)| == |xs|
  {
    if xs != [] {
      var n := |xs| - 1;
      PartitionsCount(xs[..n]);
      assert Partitions(xs) == Partitions(xs[..n]) + {xs[n].partition};
    }
  }

  lemma SubsetOfSameSize<T>(a: set<T>, b: set<T>)
    requires a <= b && |a| == |b|
    ensures a == b
  {
    assert |b - a| == 0;
  }

  /** compactPartitionsNormalized: the output has the input's partitions, one part in each. */
  method CompactPartitionsNormalized(input: seq<PartitionParts>, output: seq<PartitionParts>) returns (ok: bool)
    requires DistinctPartitions(input) && DistinctPartitions(output)
    ensures ok <==> Partitions(output) == Partitions(input) && forall x | x in output :: x.parts == 1
  {
    PartitionsCount(input);
    PartitionsCount(output);
    if |output| != |input| { return false; }
    var ids := Partitions(input);
    var i := 0;
    while i < |output|
      invariant 0 <= i <= |output|
      invariant forall j | 0 <= j < i :: output[j].parts == 1 && output[j].partition in ids
    {
      if output[i].parts != 1 {
        assert output[i] in output;
        return false;
      }
      if output[i].partition !in ids {
        assert output[i] in output && output[i].partition in Partitions(output);
        return false;
      }
      i := i + 1;
    }
    SubsetOfSameSize(Partitions(output), ids);
    return true;
  }
}
