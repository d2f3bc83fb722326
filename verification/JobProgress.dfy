/** An attempt left alone finishes, leaves what its task should, and a job that has not been aborted can be finished. */
module JobProgress {
  import opened Base
  import opened Records
  import opened StableSorting
  import opened Pipeline
  import opened JobFiles
  import opened Storage
  import opened CoordinatorSpec
  import opened CoordinatorInvariants
  import opened CoordinatorRules
  import opened JobSystem
  import Mapper

  // ----- a map attempt left alone -----

  /** `n` file operations of a map attempt, with none of anyone else's in between. */
  function Solo(s: Setup, files: Files, t: nat, w: Work, n: nat): (Files, Work)
    requires t < |s.inputs|
    decreases n
  {
    if n == 0 then (files, w) else
    var (after, v) := MapStep(s, files, t, w);
    Solo(s, after, t, v, n - 1)
  }

  function MapTexts(s: Setup, t: nat): nat -> string
    requires t < |s.inputs|
  {
    (p: nat) => MapText(s, t, p)
  }

  /** The first `n` runs are on disk, and the first `p` partitions of run `n`. */
  predicate SpillsWritten(s: Setup, files: Files, t: nat, n: nat, p: nat)
    requires t < |s.inputs| && n <= |SpilledRuns(s, t)|
  {
    forall m, q | 0 <= m <= n && 0 <= q < s.numReducers && m < |SpilledRuns(s, t)| && (m < n || q < p) ::
      SpillPath(t, m, q) in files && files[SpillPath(t, m, q)] == SpillText(s, t, m, q)
  }

  /** Away from the task's spills, `files` are `base` with the task's first `upto` final files. */
  ghost predicate FinalsWritten(s: Setup, base: Files, files: Files, t: nat, upto: nat)
    requires t < |s.inputs|
  {
    forall path: Path | !Mapper.SpillOf(path, t) ::
      SameAt(files, WithParts(base, Final(t), MapTexts(s, t), upto), path)
  }

  /** How far an attempt that started on the files `base` has got, when nobody interferes. */
  ghost predicate SoloRight(s: Setup, base: Files, files: Files, t: nat, w: Work)
    requires t < |s.inputs|
  {
    var all := |SpilledRuns(s, t)|;
    match w
    case Cleaning => FinalsWritten(s, base, files, t, 0)
    case Spilling(n, p) =>
      n <= all && p <= s.numReducers && SpillsWritten(s, files, t, n, p) && FinalsWritten(s, base, files, t, 0)
    case Merging(p, loaded) =>
      && p <= s.numReducers && SpillsWritten(s, files, t, all, 0) && FinalsWritten(s, base, files, t, p)
      && loaded <= RunFiles(s.job, SpilledRuns(s, t), p, s.numReducers)
    case Tidying => FinalsWritten(s, base, files, t, s.numReducers)
    case Finished => FinalsWritten(s, base, files, t, s.numReducers)
    case _ => false
  }

  lemma SpillStep(s: Setup, base: Files, files: Files, t: nat, n: nat, p: nat)
    requires t < |s.inputs| && n < |SpilledRuns(s, t)| && p < s.numReducers
    requires SoloRight(s, base, files, t, Spilling(n, p))
    ensures SoloRight(s, base, files[SpillPath(t, n, p) := SpillText(s, t, n, p)], t, Spilling(n, p + 1))
  {
    hide SpillText, SpilledRuns, WithParts;
    var after := files[SpillPath(t, n, p) := SpillText(s, t, n, p)];
    forall path: Path | !Mapper.SpillOf(path, t)
      ensures SameAt(after, WithParts(base, Final(t), MapTexts(s, t), 0), path)
    {
      assert SameAt(files, WithParts(base, Final(t), MapTexts(s, t), 0), path);
    }
  }

  lemma LoadStep(s: Setup, files: Files, t: nat, p: nat, loaded: seq<seq<Record>>)
    requires t < |s.inputs| && p < s.numReducers && SpillsWritten(s, files, t, |SpilledRuns(s, t)|, 0)
    requires loaded < RunFiles(s.job, SpilledRuns(s, t), p, s.numReducers)
    ensures var r := OpenNext(files, SpillPath(t, |loaded|, p), loaded);
            && r.Some? && |r.value| == |loaded| + 1
            && r.value <= RunFiles(s.job, SpilledRuns(s, t), p, s.numReducers)
  {
    hide SpilledRuns, RunFile, Encode, Decode;
    var run := RunFile(s.job, SpilledRuns(s, t)[|loaded|], p, s.numReducers);
    assert files[SpillPath(t, |loaded|, p)] == Encode(run);
    DecodeEncode(run);
  }

  lemma FinalStep(s: Setup, base: Files, files: Files, t: nat, p: nat, loaded: seq<seq<Record>>)
    requires t < |s.inputs| && p < s.numReducers && |loaded| == |SpilledRuns(s, t)|
    requires SoloRight(s, base, files, t, Merging(p, loaded))
    ensures SoloRight(s, base, files[IntermediatePath(t, p) := FinalText(s, t, p, loaded)], t, Merging(p + 1, []))
  {
    hide SpillText, SpilledRuns, FinalText, MapText;
    MergedText(s, t, p, loaded);
    var after := files[IntermediatePath(t, p) := FinalText(s, t, p, loaded)];
    forall path: Path | !Mapper.SpillOf(path, t)
      ensures SameAt(after, WithParts(base, Final(t), MapTexts(s, t), p + 1), path)
    {
      assert SameAt(files, WithParts(base, Final(t), MapTexts(s, t), p), path);
    }
  }

  /** What is left to do, as a number that every operation lowers. */
  function MapLeft(s: Setup, t: nat, w: Work): (int, int, int)
    requires t < |s.inputs|
  {
    var all := |SpilledRuns(s, t)|;
    match w
    case Cleaning => (4, 0, 0)
    case Spilling(n, p) => (3, all - n, s.numReducers - p)
    case Merging(p, loaded) => (2, s.numReducers - p, all - |loaded|)
    case Tidying => (1, 0, 0)
    case _ => (0, 0, 0)
  }

  /** A map attempt left alone finishes, and leaves its task's final files. */
  lemma {:induction false} SoloFinishes(s: Setup, base: Files, files: Files, t: nat, w: Work) returns (n: nat)
    requires t < |s.inputs| && SoloRight(s, base, files, t, w)
    ensures Solo(s, files, t, w, n).1 == Finished && FinalsWritten(s, base, Solo(s, files, t, w, n).0, t, s.numReducers)
    decreases MapLeft(s, t, w).0, MapLeft(s, t, w).1, MapLeft(s, t, w).2
  {
    hide FinalsWritten, SpillsWritten, SpillText, FinalText, SpilledRuns, OpenNext;
    if w == Finished {
      return 0;
    }
    var (after, v) := MapStep(s, files, t, w);
    SoloStep(s, base, files, t, w);
    n := SoloFinishes(s, base, after, t, v);
    n := n + 1;
  }

  predicate Sooner(a: (int, int, int), b: (int, int, int)) {
    && 0 <= a.0 && 0 <= a.1 && 0 <= a.2
    && (a.0 < b.0 || (a.0 == b.0 && (a.1 < b.1 || (a.1 == b.1 && a.2 < b.2))))
  }

  lemma MergeStep(s: Setup, base: Files, files: Files, t: nat, p: nat, loaded: seq<seq<Record>>)
    requires t < |s.inputs| && SoloRight(s, base, files, t, Merging(p, loaded))
    ensures var (after, v) := MapStep(s, files, t, Merging(p, loaded));
            SoloRight(s, base, after, t, v) && Sooner(MapLeft(s, t, v), MapLeft(s, t, Merging(p, loaded)))
  {
    if p < s.numReducers {
      if |loaded| < |SpilledRuns(s, t)| {
        hide SpillsWritten, FinalsWritten, SpilledRuns, OpenNext;
        LoadStep(s, files, t, p, loaded);
      } else {
        hide SpillsWritten, FinalsWritten, SpilledRuns, FinalText;
        FinalStep(s, base, files, t, p, loaded);
      }
    }
  }

  lemma SoloStep(s: Setup, base: Files, files: Files, t: nat, w: Work)
    requires t < |s.inputs| && SoloRight(s, base, files, t, w) && w != Finished
    ensures var (after, v) := MapStep(s, files, t, w);
            SoloRight(s, base, after, t, v) && Sooner(MapLeft(s, t, v), MapLeft(s, t, w))
  {
    hide FinalsWritten, SpilledRuns, SpillText, FinalText, OpenNext;
    match w
    case Cleaning =>
    case Spilling(n, p) =>
      if n < |SpilledRuns(s, t)| && p < s.numReducers {
        SpillStep(s, base, files, t, n, p);
      }
    case Merging(p, loaded) => MergeStep(s, base, files, t, p, loaded);
    case Tidying =>
  }

  lemma {:induction false} SameParts(files: Files, stage: Stage, a: nat -> string, b: nat -> string, upto: nat)
    requires forall p | 0 <= p < upto :: a(p) == b(p)
    ensures WithParts(files, stage, a, upto) == WithParts(files, stage, b, upto)
  {
    if upto > 0 {
      SameParts(files, stage, a, b, upto - 1);
    }
  }

  /** Run on its own, an attempt of the interleaved system leaves the final files the map task's code leaves. */
  lemma MapTaskAlone(s: Setup, files: Files, t: nat, spillBytes: int) returns (n: nat)
    requires t < |s.inputs| && s.limit == Mapper.AtLeastKilobyte(spillBytes)
    ensures Solo(s, files, t, Cleaning, n).1 == Finished
    ensures var texts := Mapper.TaskTexts(s.job, s.inputs[t], spillBytes, s.numReducers);
            forall path: Path | !Mapper.SpillOf(path, t) ::
              SameAt(Solo(s, files, t, Cleaning, n).0, WithParts(files, Final(t), texts, s.numReducers), path)
  {
    var texts := Mapper.TaskTexts(s.job, s.inputs[t], spillBytes, s.numReducers);
    n := SoloFinishes(s, files, files, t, Cleaning);
    SameParts(files, Final(t), texts, MapTexts(s, t), s.numReducers);
  }

  // ----- a job that has not been aborted can be finished -----

  function Then(s: Setup, y: System, actions: seq<Action>): System
    requires s.cfg.Valid()
    decreases |actions|
  {
    if actions == [] then y else Then(s, Do(s, y, actions[0]), actions[1..])
  }

  lemma {:induction false} ThenAppend(s: Setup, y: System, a: seq<Action>, b: seq<Action>)
    requires s.cfg.Valid()
    ensures Then(s, y, a + b) == Then(s, Then(s, y, a), b)
    decreases |a|
  {
    hide Do;
    if a == [] {
      assert a + b == b;
    } else {
      assert (a + b)[1..] == a[1..] + b;
      ThenAppend(s, Do(s, y, a[0]), a[1..], b);
    }
  }

  lemma {:induction false} AfterThen(s: Setup, actions: seq<Action>, more: seq<Action>)
    requires s.cfg.Valid()
    ensures After(s, actions + more) == Then(s, After(s, actions), more)
    decreases |more|
  {
    hide Do;
    if more == [] {
      assert actions + more == actions;
    } else {
      assert (actions + [more[0]])[..|actions|] == actions;
      assert actions + [more[0]] + more[1..] == actions + more;
      AfterThen(s, actions + [more[0]], more[1..]);
    }
  }

  predicate NoneRunning(c: Coord) {
    (forall t <- c.maps :: !t.state.Running?) && forall t <- c.reduces :: !t.state.Running?
  }

  predicate Complete(c: Coord) {
    AllDone(c.maps) && AllDone(c.reduces)
  }

  lemma {:induction false} LatestStart(tasks: seq<Task>) returns (b: int)
    ensures forall t <- tasks :: t.started <= b
  {
    if tasks == [] {
      return 0;
    }
    b := LatestStart(tasks[1..]);
    if tasks[0].started > b {
      b := tasks[0].started;
    }
    assert tasks == [tasks[0]] + tasks[1..];
  }

  /** A reclaim late enough takes every running task back. */
  lemma SweepStopsAll(s: Setup, y: System) returns (delay: nat)
    requires s.Valid() && Inv(s, y) && !y.coord.jobErr
    ensures var z := Do(s, y, Sweep(delay));
            && Inv(s, z) && NoneRunning(z.coord) && !z.coord.jobErr
            && SameDone(y.coord.maps, z.coord.maps) && SameDone(y.coord.reduces, z.coord.reduces)
  {
    hide Inv, Sound;
    var a := LatestStart(y.coord.maps);
    var b := LatestStart(y.coord.reduces);
    var late := (if a > b then a else b) + s.cfg.taskTimeout + 1;
    delay := if late > y.now then late - y.now else 0;
    StepInv(s, y, Sweep(delay));
  }

  /** With nothing running and something unfinished a request is answered with a task. */
  lemma RequestAssigns(c: Coord, cfg: Config, w: WorkerId, now: int)
    requires cfg.Valid() && NoneRunning(c) && !Complete(c) && !c.jobErr
    ensures Request(c, cfg, w, now).1.Assigned? && !Request(c, cfg, w, now).0.jobErr
  {
    var swept := Reclaim(Touch(c, w, now), cfg, now);
    assert swept.maps == c.maps && swept.reduces == c.reduces && !swept.jobErr;
    IdleIsAssigned(swept, cfg, MapKind, w, now);
    IdleIsAssigned(EnterReduce(swept), cfg, ReduceKind, w, now);
  }

  lemma IdleIsAssigned(c: Coord, cfg: Config, kind: Kind, w: WorkerId, now: int)
    requires cfg.Valid() && NoneRunning(c)
    ensures TryAssign(c, cfg, kind, w, now).Some? <==> !AllDone(c.Tasks(kind))
    ensures TryAssign(c, cfg, kind, w, now).Some? ==>
              var (d, reply) := TryAssign(c, cfg, kind, w, now).value; reply.Assigned? && d.jobErr == c.jobErr
  {
    var tasks := c.Tasks(kind);
    if FirstIdle(tasks).Some? {
      assert tasks[FirstIdle(tasks).value] in tasks;
    }
    assert BackupChoice(c, cfg, kind, w, now) == None by {
      var limit := Limit(Median(c.durations), cfg);
      assert forall t <- tasks :: !Straggling(t, w, now, limit);
    }
  }

  lemma AskAssigns(s: Setup, y: System) returns (a: Attempt)
    requires s.Valid() && Inv(s, y) && NoneRunning(y.coord) && !Complete(y.coord) && !y.coord.jobErr
    ensures var z := Do(s, y, Ask(0, 0));
            && Inv(s, z) && !z.coord.jobErr && a in z.work
            && z.work[a] == (if a.kind.MapKind? then Cleaning else Gathering(0, []))
            && a.id < |z.coord.Tasks(a.kind)| && !z.coord.Tasks(a.kind)[a.id].state.Done?
            && SameDone(y.coord.maps, z.coord.maps) && SameDone(y.coord.reduces, z.coord.reduces)
  {
    hide Inv, Sound, Request;
    var reply := Request(y.coord, s.cfg, 0, y.now).1;
    RequestAssigns(y.coord, s.cfg, 0, y.now);
    a := Attempt(reply.kind, reply.id, reply.attempt, 0);
    StepInv(s, y, Ask(0, 0));
    AssignmentIsDue(y.coord, s.cfg, 0, y.now);
    RequestFinishesNothing(y.coord, s.cfg, 0, y.now);
  }

  lemma {:induction false} MapAttemptFinishes(s: Setup, y: System, a: Attempt, n: nat) returns (more: seq<Action>)
    requires s.Valid() && Inv(s, y) && a in y.work && a.kind.MapKind? && a.id < |s.inputs|
    requires Solo(s, y.files, a.id, y.work[a], n).1 == Finished
    ensures var z := Then(s, y, more);
            Inv(s, z) && z.coord == y.coord && a in z.work && z.work[a] == Finished
    decreases n
  {
    hide Inv, MapStep;
    if n == 0 {
      return [];
    }
    StepInv(s, y, Advance(a));
    var rest := MapAttemptFinishes(s, Do(s, y, Advance(a)), a, n - 1);
    return [Advance(a)] + rest;
  }

  lemma {:induction false} ReduceAttemptFinishes(s: Setup, y: System, a: Attempt, left: nat) returns (more: seq<Action>)
    requires s.Valid() && Inv(s, y) && a in y.work && a.kind.ReduceKind? && y.work[a].Gathering?
    requires left + y.work[a].next == |s.inputs|
    ensures var z := Then(s, y, more);
            Inv(s, z) && z.coord == y.coord && a in z.work && z.work[a] == Finished
    decreases left
  {
    var next := Do(s, y, Advance(a));
    ReduceAdvances(s, y, a);
    hide Inv, Do;
    StepInv(s, y, Advance(a));
    if left == 0 {
      ThenOne(s, y, Advance(a));
      return [Advance(a)];
    }
    var rest := ReduceAttemptFinishes(s, next, a, left - 1);
    return [Advance(a)] + rest;
  }

  lemma ReduceAdvances(s: Setup, y: System, a: Attempt)
    requires s.Valid() && Inv(s, y) && a in y.work && a.kind.ReduceKind? && y.work[a].Gathering?
    ensures var z := Do(s, y, Advance(a));
            && z.coord == y.coord && a in z.work
            && if y.work[a].next < |s.inputs| then z.work[a].Gathering? && z.work[a].next == y.work[a].next + 1
               else z.work[a] == Finished
  {
    hide Sound, FilesRight, DoneWritten, MapFile;
    assert WorkRight(s, y.files, y.coord, a, y.work[a]);
    if y.work[a].next < |s.inputs| {
      GatherStep(s, y.coord, y.files, a.id, y.work[a].next, y.work[a].loaded);
    }
  }

  function Unfinished(c: Coord): int {
    |c.maps| + |c.reduces| - Both(c, DoneOf)
  }

  lemma SameUnfinished(c: Coord, d: Coord)
    requires SameDone(c.maps, d.maps) && SameDone(c.reduces, d.reduces)
    ensures Unfinished(c) == Unfinished(d)
  {
    SameDoneSum(c.maps, d.maps);
    SameDoneSum(c.reduces, d.reduces);
  }

  lemma SucceededCounts(c: Coord, r: Report)
    requires 0 <= r.id < |c.Tasks(r.kind)| && !c.Tasks(r.kind)[r.id].state.Done?
    ensures Unfinished(Succeeded(c, r)) == Unfinished(c) - 1 && Succeeded(c, r).jobErr == c.jobErr
  {
    hide AddCounters;
    SumPut(c, r.kind, r.id, c.Tasks(r.kind)[r.id].(state := Done), DoneOf);
  }

  lemma SettleCounts(c: Coord)
    ensures Unfinished(Settle(c)) == Unfinished(c) && Settle(c).jobErr == c.jobErr
  {
    hide AllDone;
  }

  /** The first success reported for a task finishes it. */
  lemma ReportCounts(c: Coord, cfg: Config, r: Report, now: int)
    requires !c.jobErr && r.success && 0 <= r.id < |c.Tasks(r.kind)| && !c.Tasks(r.kind)[r.id].state.Done?
    ensures var d := ReportTask(c, cfg, r, now).0; !d.jobErr && Unfinished(d) == Unfinished(c) - 1
  {
    var seen := Touch(c, r.worker, now);
    assert Unfinished(seen) == Unfinished(c);
    hide Settle, Succeeded, Unfinished;
    SucceededCounts(seen, r);
    SettleCounts(Succeeded(seen, r));
  }

  lemma DeliverCounts(s: Setup, y: System, a: Attempt)
    requires s.Valid() && Inv(s, y) && !y.coord.jobErr && a in y.work && y.work[a] == Finished
    requires a.id < |y.coord.Tasks(a.kind)| && !y.coord.Tasks(a.kind)[a.id].state.Done?
    ensures var z := Do(s, y, Deliver(a, 0, map[], 0));
            Inv(s, z) && !z.coord.jobErr && Unfinished(z.coord) == Unfinished(y.coord) - 1
  {
    hide Inv, ReportTask, Unfinished;
    StepInv(s, y, Deliver(a, 0, map[], 0));
    ReportCounts(y.coord, s.cfg, ReportOf(a, y.work[a], 0, map[]), y.now);
  }

  /** One more task can be finished. */
  lemma OneMoreTask(s: Setup, y: System) returns (more: seq<Action>)
    requires s.Valid() && Inv(s, y) && !y.coord.jobErr && !Complete(y.coord)
    ensures var z := Then(s, y, more);
            Inv(s, z) && !z.coord.jobErr && Unfinished(z.coord) == Unfinished(y.coord) - 1
  {
    hide Inv, Do, Unfinished;
    var delay := SweepStopsAll(s, y);
    var swept := Do(s, y, Sweep(delay));
    SameUnfinished(y.coord, swept.coord);
    assert !Complete(swept.coord) by { StillIncomplete(y.coord, swept.coord); }
    var a := AskAssigns(s, swept);
    var asked := Do(s, swept, Ask(0, 0));
    SameUnfinished(swept.coord, asked.coord);
    var work := AttemptFinishes(s, asked, a);
    var worked := Then(s, asked, work);
    DeliverCounts(s, worked, a);
    more := [Sweep(delay), Ask(0, 0)] + work + [Deliver(a, 0, map[], 0)];
    ThenAppend(s, y, [Sweep(delay), Ask(0, 0)] + work, [Deliver(a, 0, map[], 0)]);
    ThenAppend(s, y, [Sweep(delay), Ask(0, 0)], work);
    ThenTwo(s, y, Sweep(delay), Ask(0, 0));
    ThenOne(s, worked, Deliver(a, 0, map[], 0));
  }

  lemma ThenOne(s: Setup, y: System, a: Action)
    requires s.cfg.Valid()
    ensures Then(s, y, [a]) == Do(s, y, a)
  {
    hide Do;
    assert Then(s, Do(s, y, a), []) == Do(s, y, a);
  }

  lemma ThenTwo(s: Setup, y: System, a: Action, b: Action)
    requires s.cfg.Valid()
    ensures Then(s, y, [a, b]) == Do(s, Do(s, y, a), b)
  {
    hide Do;
    assert [a, b][1..] == [b];
    ThenOne(s, Do(s, y, a), b);
  }

  lemma SameAllDone(a: seq<Task>, b: seq<Task>)
    requires SameDone(a, b) && AllDone(a)
    ensures AllDone(b)
  {
    forall t | t in b ensures t.state.Done? {
      var i :| 0 <= i < |b| && b[i] == t;
      assert a[i] in a;
    }
  }

  lemma StillIncomplete(c: Coord, d: Coord)
    requires SameDone(c.maps, d.maps) && SameDone(c.reduces, d.reduces) && !Complete(c)
    ensures !Complete(d)
  {
    hide AllDone;
    if Complete(d) {
      SameAllDone(d.maps, c.maps);
      SameAllDone(d.reduces, c.reduces);
    }
  }

  lemma AttemptFinishes(s: Setup, y: System, a: Attempt) returns (more: seq<Action>)
    requires s.Valid() && Inv(s, y) && a in y.work
    requires y.work[a] == (if a.kind.MapKind? then Cleaning else Gathering(0, []))
    ensures var z := Then(s, y, more);
            Inv(s, z) && z.coord == y.coord && a in z.work && z.work[a] == Finished
  {
    hide Sound, FilesRight, DoneWritten;
    assert WorkRight(s, y.files, y.coord, a, y.work[a]);
    hide Inv, WorkRight;
    if a.kind.MapKind? {
      var n := SoloFinishes(s, y.files, y.files, a.id, Cleaning);
      more := MapAttemptFinishes(s, y, a, n);
    } else {
      more := ReduceAttemptFinishes(s, y, a, |s.inputs|);
    }
  }

  lemma DoneAtMost(tasks: seq<Task>)
    ensures Sum(tasks, DoneOf) <= |tasks|
  {
    SumBound(tasks, DoneOf, 1);
  }

  lemma {:induction false} TasksCanFinish(s: Setup, y: System) returns (more: seq<Action>)
    requires s.Valid() && Inv(s, y) && !y.coord.jobErr
    ensures var z := Then(s, y, more); Inv(s, z) && !z.coord.jobErr && Complete(z.coord)
    decreases Unfinished(y.coord)
  {
    hide Inv, Complete, Do;
    if Complete(y.coord) {
      return [];
    }
    DoneAtMost(y.coord.maps);
    DoneAtMost(y.coord.reduces);
    var first := OneMoreTask(s, y);
    var rest := TasksCanFinish(s, Then(s, y, first));
    ThenAppend(s, y, first, rest);
    return first + rest;
  }

  /** From every state a job can reach without being aborted it can still reach its end. */
  lemma JobCanFinish(s: Setup, actions: seq<Action>) returns (more: seq<Action>)
    requires s.Valid() && !After(s, actions).coord.jobErr
    ensures After(s, actions + more).coord.phase.DonePhase?
  {
    ReachableInv(s, actions);
    more := TasksCanFinish(s, After(s, actions));
    AfterThen(s, actions, more);
    assert actions + more + [] == actions + more;
    OutcomeIsFinal(s, actions + more, []);
  }

  // ----- a job that has been aborted -----

  lemma StepExhausts(s: Setup, y: System, action: Action)
    requires s.cfg.Valid() && (y.coord.jobErr ==> FailedTooOften(y.coord, s.cfg))
    ensures var z := Do(s, y, action); z.coord.jobErr ==> FailedTooOften(z.coord, s.cfg)
  {
    hide FailedTooOften, Request, ReportTask, WorkStep, Reclaim;
    var c, d := y.coord, Do(s, y, action).coord;
    match action
    case Join(delay) => SameTasksRemember(c, d); RemembersFailures(c, d, s.cfg);
    case Beat(w, delay) => SameTasksRemember(c, d); RemembersFailures(c, d, s.cfg);
    case Sweep(delay) => ReclaimRemembers(c, s.cfg, y.now + delay); RemembersFailures(c, d, s.cfg);
    case Ask(w, delay) => RequestRemembers(c, s.cfg, w, y.now + delay); RemembersFailures(c, d, s.cfg);
    case Advance(a) =>
    case DeleteSpill(a, n, p) =>
    case Break(a) =>
    case Deliver(a, elapsed, counters, delay) =>
      if a in y.work {
        ReportExhausts(c, s.cfg, ReportOf(a, y.work[a], elapsed, counters), y.now + delay);
      }
  }

  /** A job is aborted only after some task has failed as often as it may. */
  lemma {:induction false} AbortIsEarned(s: Setup, actions: seq<Action>)
    requires s.Valid()
    ensures var c := After(s, actions).coord;
            c.jobErr ==> s.cfg.maxAttempts > 0 &&
                         ((exists t <- c.maps :: t.failures >= s.cfg.maxAttempts)
                          || exists t <- c.reduces :: t.failures >= s.cfg.maxAttempts)
  {
    ReachableExhausted(s, actions);
    var c := After(s, actions).coord;
    if c.jobErr {
      var kind: Kind, i: nat :| Failing(c, s.cfg, kind, i);
      assert c.Tasks(kind)[i] in c.Tasks(kind);
    }
  }

  lemma {:induction false} ReachableExhausted(s: Setup, actions: seq<Action>)
    requires s.Valid()
    ensures After(s, actions).coord.jobErr ==> FailedTooOften(After(s, actions).coord, s.cfg)
  {
    hide FailedTooOften, Do;
    if actions != [] {
      ReachableExhausted(s, actions[..|actions| - 1]);
      StepExhausts(s, After(s, actions[..|actions| - 1]), actions[|actions| - 1]);
    }
  }
}
