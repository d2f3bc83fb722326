/**
 * The coordinator's task table as a value, and what each remote call and the timed reclaim do to it.
 *
 * Worker names are the numbers the coordinator formats into them; a call may name a worker that was
 * never registered. Times are integers and every step is given the current time.
 */
module CoordinatorSpec {
  import opened Base

  type WorkerId = nat

  datatype Kind = MapKind | ReduceKind

  datatype TaskState = Idle | Running | Done

  datatype Phase = MapPhase | ReducePhase | DonePhase | FailedPhase

  /** The straggler threshold is the fraction `thresholdNum / thresholdDen`. */
  datatype Config = Config(
    workerTimeout: int,
    taskTimeout: int,
    enableBackups: bool,
    thresholdNum: nat,
    thresholdDen: nat,
    maxAttempts: int)
  {
    predicate Valid() {
      thresholdDen > 0
    }
  }

  datatype Task = Task(
    state: TaskState,
    attempt: nat,
    started: int,
    workers: map<WorkerId, nat>,
    failures: nat,
    backup: bool)

  datatype Worker = Worker(lastSeen: int, alive: bool, exited: bool)

  datatype Coord = Coord(
    maps: seq<Task>,
    reduces: seq<Task>,
    workers: map<WorkerId, Worker>,
    nextId: nat,
    counters: map<string, int>,
    phase: Phase,
    jobErr: bool,
    closed: bool,
    durations: seq<int>,
    lostWorkers: nat,
    reassignments: nat,
    backupsLaunched: nat)
  {
    function Tasks(kind: Kind): seq<Task> {
      if kind.MapKind? then maps else reduces
    }

    function Put(kind: Kind, i: nat, t: Task): Coord
      requires i < |Tasks(kind)|
    {
      if kind.MapKind? then this.(maps := maps[i := t]) else this.(reduces := reduces[i := t])
    }
  }

  datatype Reply = Assigned(kind: Kind, id: nat, attempt: nat) | Wait | Exit

  const FRESH: Task := Task(Idle, 0, 0, map[], 0, false)

  function New(numMaps: nat, numReduces: nat): Coord {
    Coord(seq(numMaps, _ => FRESH), seq(numReduces, _ => FRESH), map[], 0, map[], MapPhase,
          false, false, [], 0, 0, 0)
  }

  predicate AllDone(tasks: seq<Task>) {
    forall t <- tasks :: t.state.Done?
  }

  // ----- worker liveness -----

  function Register(c: Coord, now: int): (r: (Coord, WorkerId))
    ensures r.1 == c.nextId + 1
  {
    var id := c.nextId + 1;
    (c.(nextId := id, workers := c.workers[id := Worker(now, true, false)]), id)
  }

  /** Every call by a registered worker counts as a heartbeat. */
  function Touch(c: Coord, w: WorkerId, now: int): Coord {
    if w in c.workers
    then c.(workers := c.workers[w := c.workers[w].(lastSeen := now, alive := true)])
    else c
  }

  function MarkExited(c: Coord, w: WorkerId): Coord {
    if w in c.workers then c.(workers := c.workers[w := c.workers[w].(exited := true)]) else c
  }

  // ----- reclaiming lost and overdue tasks -----

  predicate Silent(w: Worker, cfg: Config, now: int) {
    w.alive && now - w.lastSeen > cfg.workerTimeout
  }

  function SilentWorkers(workers: map<WorkerId, Worker>, cfg: Config, now: int): set<WorkerId> {
    set w <- workers | Silent(workers[w], cfg, now)
  }

  function BuryWorkers(workers: map<WorkerId, Worker>, cfg: Config, now: int): map<WorkerId, Worker> {
    map w <- workers :: workers[w].(alive := workers[w].alive && !Silent(workers[w], cfg, now))
  }

  /** The attempts of `t` that belong to workers still believed alive. */
  function LiveAttempts(t: Task, workers: map<WorkerId, Worker>): map<WorkerId, nat> {
    map w <- t.workers | w in workers && workers[w].alive :: t.workers[w]
  }

  predicate MustReclaim(t: Task, workers: map<WorkerId, Worker>, cfg: Config, now: int) {
    t.state.Running? && (LiveAttempts(t, workers) == map[] || now - t.started > cfg.taskTimeout)
  }

  function ReclaimTask(t: Task, workers: map<WorkerId, Worker>, cfg: Config, now: int): Task {
    if !t.state.Running? then t
    else if MustReclaim(t, workers, cfg, now) then t.(state := Idle, backup := false, workers := map[])
    else t.(workers := LiveAttempts(t, workers))
  }

  function ReclaimTasks(tasks: seq<Task>, workers: map<WorkerId, Worker>, cfg: Config, now: int): seq<Task> {
    seq(|tasks|, i requires 0 <= i < |tasks| => ReclaimTask(tasks[i], workers, cfg, now))
  }

  function Reclaimed(tasks: seq<Task>, workers: map<WorkerId, Worker>, cfg: Config, now: int): nat {
    if tasks == [] then 0
    else (if MustReclaim(tasks[0], workers, cfg, now) then 1 else 0) + Reclaimed(tasks[1..], workers, cfg, now)
  }

  function Reclaim(c: Coord, cfg: Config, now: int): Coord {
    var workers := BuryWorkers(c.workers, cfg, now);
    c.(workers := workers,
       lostWorkers := c.lostWorkers + |SilentWorkers(c.workers, cfg, now)|,
       maps := ReclaimTasks(c.maps, workers, cfg, now),
       reduces := ReclaimTasks(c.reduces, workers, cfg, now),
       reassignments := c.reassignments + Reclaimed(c.maps, workers, cfg, now)
                        + Reclaimed(c.reduces, workers, cfg, now))
  }

  // ----- choosing a task -----

  /** The first idle task. */
  function FirstIdle(tasks: seq<Task>): (r: Option<nat>)
    ensures r.Some? ==> r.value < |tasks| && tasks[r.value].state.Idle?
    ensures r.Some? ==> forall j | 0 <= j < r.value :: !tasks[j].state.Idle?
    ensures r.None? ==> forall t <- tasks :: !t.state.Idle?
  {
    if tasks == [] then None
    else if tasks[0].state.Idle? then Some(0)
    else match FirstIdle(tasks[1..])
      case None => None
      case Some(i) => Some(i + 1)
  }

  function InsertSorted(x: int, s: seq<int>): seq<int> {
    if s == [] || x <= s[0] then [x] + s else [s[0]] + InsertSorted(x, s[1..])
  }

  function Sorted(s: seq<int>): (r: seq<int>)
    ensures |r| == |s|
  {
    if s == [] then [] else
      InsertedLength(s[0], Sorted(s[1..]));
      InsertSorted(s[0], Sorted(s[1..]))
  }

  lemma InsertedLength(x: int, s: seq<int>)
    ensures |InsertSorted(x, s)| == |s| + 1
  {
  }

  /** The upper median of the finished durations, or zero while fewer than two have finished. */
  function Median(durations: seq<int>): int {
    if |durations| < 2 then 0 else Sorted(durations)[|durations| / 2]
  }

  function Limit(threshold: int, cfg: Config): int
    requires cfg.Valid()
  {
    threshold * cfg.thresholdNum / cfg.thresholdDen
  }

  predicate Straggling(t: Task, w: WorkerId, now: int, limit: int) {
    && t.state.Running? && !t.backup && w !in t.workers
    && now - t.started > limit && now - t.started > 0
  }

  /** The longest-running straggler `w` is not already working on, the first of them on a tie. */
  function LongestStraggler(tasks: seq<Task>, w: WorkerId, now: int, limit: int): (r: Option<nat>)
    ensures r.Some? ==> r.value < |tasks| && Straggling(tasks[r.value], w, now, limit)
    ensures r.Some? ==> forall j | 0 <= j < |tasks| && Straggling(tasks[j], w, now, limit) ::
                          tasks[r.value].started <= tasks[j].started
                          && (j < r.value ==> tasks[r.value].started < tasks[j].started)
    ensures r.None? ==> forall t <- tasks :: !Straggling(t, w, now, limit)
  {
    if tasks == [] then None else
    var n := |tasks| - 1;
    var before := LongestStraggler(tasks[..n], w, now, limit);
    assert tasks == tasks[..n] + [tasks[n]];
    if Straggling(tasks[n], w, now, limit)
       && (before.None? || tasks[n].started < tasks[before.value].started)
    then Some(n)
    else before
  }

  function BackupChoice(c: Coord, cfg: Config, kind: Kind, w: WorkerId, now: int): Option<nat>
    requires cfg.Valid()
  {
    if !cfg.enableBackups || Median(c.durations) <= 0 then None
    else LongestStraggler(c.Tasks(kind), w, now, Limit(Median(c.durations), cfg))
  }

  function StartAttempt(t: Task, w: WorkerId, now: int): Task {
    t.(started := if t.state.Running? then t.started else now,
       state := Running,
       attempt := t.attempt + 1,
       workers := t.workers[w := t.attempt + 1])
  }

  /** Hands out the first idle task, else a backup of a straggler, else nothing. */
  function TryAssign(c: Coord, cfg: Config, kind: Kind, w: WorkerId, now: int): (r: Option<(Coord, Reply)>)
    requires cfg.Valid()
  {
    match FirstIdle(c.Tasks(kind))
    case Some(i) =>
      var t := StartAttempt(c.Tasks(kind)[i], w, now);
      Some((c.Put(kind, i, t), Assigned(kind, i, t.attempt)))
    case None =>
      match BackupChoice(c, cfg, kind, w, now)
      case None => None
      case Some(i) =>
        var t := StartAttempt(c.Tasks(kind)[i].(backup := true), w, now);
        Some((c.Put(kind, i, t).(backupsLaunched := c.backupsLaunched + 1), Assigned(kind, i, t.attempt)))
  }

  // ----- ending the job -----

  function Finish(c: Coord): Coord {
    if c.closed then c else c.(closed := true, phase := DonePhase)
  }

  function Fail(c: Coord): Coord {
    if c.closed then c else c.(closed := true, phase := FailedPhase, jobErr := true)
  }

  // ----- the calls -----

  function EnterReduce(c: Coord): Coord {
    if c.phase.MapPhase? then c.(phase := ReducePhase, durations := []) else c
  }

  function HandOutReduce(c: Coord, cfg: Config, w: WorkerId, now: int): (Coord, Reply)
    requires cfg.Valid()
  {
    match TryAssign(c, cfg, ReduceKind, w, now)
    case Some(r) => r
    case None => if !AllDone(c.reduces) then (c, Wait) else (MarkExited(Finish(c), w), Exit)
  }

  /** A map task while there is one, then a reduce task, then the signal to exit. */
  function HandOut(c: Coord, cfg: Config, w: WorkerId, now: int): (Coord, Reply)
    requires cfg.Valid()
  {
    match TryAssign(c, cfg, MapKind, w, now)
    case Some(r) => r
    case None => if !AllDone(c.maps) then (c, Wait) else HandOutReduce(EnterReduce(c), cfg, w, now)
  }

  function Request(c: Coord, cfg: Config, w: WorkerId, now: int): (Coord, Reply)
    requires cfg.Valid()
  {
    var seen := Touch(c, w, now);
    if seen.jobErr then (MarkExited(seen, w), Exit) else HandOut(Reclaim(seen, cfg, now), cfg, w, now)
  }

  datatype Report = Report(worker: WorkerId, kind: Kind, id: int, success: bool, counters: map<string, int>,
                           elapsed: int)

  function AddCounters(into: map<string, int>, more: map<string, int>): map<string, int> {
    map name <- into.Keys + more.Keys ::
      (if name in into then into[name] else 0) + (if name in more then more[name] else 0)
  }

  function FailTask(t: Task, w: WorkerId): Task {
    t.(failures := t.failures + 1, state := Idle, workers := t.workers - {w})
  }

  function Failed(c: Coord, cfg: Config, r: Report): Coord
    requires 0 <= r.id < |c.Tasks(r.kind)|
  {
    var failed := FailTask(c.Tasks(r.kind)[r.id], r.worker);
    var after := c.Put(r.kind, r.id, failed);
    if cfg.maxAttempts > 0 && failed.failures >= cfg.maxAttempts then Fail(after) else after
  }

  function Succeeded(c: Coord, r: Report): Coord
    requires 0 <= r.id < |c.Tasks(r.kind)|
  {
    c.Put(r.kind, r.id, c.Tasks(r.kind)[r.id].(state := Done))
     .(durations := c.durations + [r.elapsed], counters := AddCounters(c.counters, r.counters))
  }

  function Settle(c: Coord): Coord {
    if AllDone(c.maps) && AllDone(c.reduces) then Finish(c) else c
  }

  /** Accepts the first success of an unfinished task; returns whether it did. */
  function ReportTask(c: Coord, cfg: Config, r: Report, now: int): (Coord, bool) {
    var seen := Touch(c, r.worker, now);
    if r.id < 0 || r.id >= |seen.Tasks(r.kind)| || seen.Tasks(r.kind)[r.id].state.Done? then (seen, false)
    else if !r.success then (Failed(seen, cfg, r), false)
    else (Settle(Succeeded(seen, r)), true)
  }
}
