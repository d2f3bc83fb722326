/** What every call and every reclaim keeps true of the coordinator, and what its replies promise. */
module CoordinatorInvariants {
  import opened Base
  import opened CoordinatorSpec

  // ----- the accepted reports -----

  predicate IsFor(r: Report, kind: Kind, id: int) {
    r.kind == kind && r.id == id
  }

  predicate Covered(accepted: seq<Report>, kind: Kind, id: int) {
    exists r <- accepted :: IsFor(r, kind, id)
  }

  /** Every done task has exactly one accepted report, and no other task has any. */
  predicate Logged(c: Coord, accepted: seq<Report>) {
    && (forall kind: Kind, i: nat | i < |c.Tasks(kind)| :: c.Tasks(kind)[i].state.Done? <==> Covered(accepted, kind, i))
    && (forall r <- accepted :: 0 <= r.id < |c.Tasks(r.kind)|)
    && forall i, j | 0 <= i < j < |accepted| :: !IsFor(accepted[i], accepted[j].kind, accepted[j].id)
  }

  /** The elapsed times of the accepted reports of one kind, in order of acceptance. */
  function Elapsed(accepted: seq<Report>, kind: Kind): seq<int> {
    if accepted == [] then [] else
    var n := |accepted| - 1;
    Elapsed(accepted[..n], kind) + if accepted[n].kind == kind then [accepted[n].elapsed] else []
  }

  function Count(counters: map<string, int>, name: string): int {
    if name in counters then counters[name] else 0
  }

  /** The job-wide total of one counter over a list of reports. */
  function Total(accepted: seq<Report>, name: string): int {
    Sum(accepted, (r: Report) => Count(r.counters, name))
  }

  function DoneOf(t: Task): int {
    if t.state.Done? then 1 else 0
  }

  /** The durations feeding the straggler median are those of the current phase, one per done task of it. */
  predicate Timed(c: Coord, accepted: seq<Report>) {
    && (forall kind: Kind :: |Elapsed(accepted, kind)| == Sum(c.Tasks(kind), DoneOf))
    && (c.phase.MapPhase? ==> c.durations == Elapsed(accepted, MapKind))
    && (c.phase.ReducePhase? ==> c.durations == Elapsed(accepted, ReduceKind))
  }

  ghost predicate Counted(c: Coord, accepted: seq<Report>) {
    forall name: string :: Count(c.counters, name) == Total(accepted, name)
  }

  // ----- phases -----

  predicate Unstarted(t: Task) {
    t.state.Idle? && t.attempt == 0 && t.failures == 0
  }

  predicate Untouched(tasks: seq<Task>) {
    forall t <- tasks :: Unstarted(t)
  }

  /** Phases follow the tasks: nothing of the reduce phase before every map task is done. */
  predicate InPhase(c: Coord) {
    && (c.closed <==> c.phase.DonePhase? || c.phase.FailedPhase?)
    && (c.jobErr <==> c.phase.FailedPhase?)
    && (c.phase.ReducePhase? || c.phase.DonePhase? ==> AllDone(c.maps))
    && (c.phase.DonePhase? ==> AllDone(c.reduces))
    && (c.phase.MapPhase? || !AllDone(c.maps) ==> Untouched(c.reduces))
  }

  predicate Phased(c: Coord) {
    InPhase(c) && (AllDone(c.maps) && AllDone(c.reduces) && |c.maps| + |c.reduces| > 0 ==> c.closed)
  }

  // ----- how many attempts there can be -----

  function AttemptOf(t: Task): int { t.attempt }

  function FailuresOf(t: Task): int { t.failures }

  function BackupOf(t: Task): int { if t.backup then 1 else 0 }

  function Allowance(t: Task): int {
    t.failures + 1 - t.attempt - if t.state.Idle? then 1 else 0
  }

  function Both(c: Coord, f: Task -> int): int {
    Sum(c.maps, f) + Sum(c.reduces, f)
  }

  predicate Patient(tasks: seq<Task>, cfg: Config) {
    forall t <- tasks :: t.failures < cfg.maxAttempts
  }

  predicate Budgeted(c: Coord, cfg: Config) {
    && Both(c, Allowance) + c.reassignments + c.backupsLaunched >= 0
    && c.backupsLaunched <= Both(c, BackupOf) + c.reassignments
    && (cfg.maxAttempts > 0 && !c.jobErr ==> Patient(c.maps, cfg) && Patient(c.reduces, cfg))
  }

  ghost predicate Recorded(c: Coord, accepted: seq<Report>) {
    Logged(c, accepted) && Timed(c, accepted) && Counted(c, accepted)
  }

  ghost predicate Sound(c: Coord, cfg: Config, accepted: seq<Report>) {
    Phased(c) && Budgeted(c, cfg) && Recorded(c, accepted)
  }

  // ----- the start -----

  lemma {:induction false} SumFresh(n: nat, f: Task -> int)
    ensures Sum(seq(n, _ => FRESH), f) == n * f(FRESH)
  {
    if n > 0 {
      assert seq(n, _ => FRESH)[1..] == seq(n - 1, _ => FRESH);
      SumFresh(n - 1, f);
      assert n * f(FRESH) == f(FRESH) + (n - 1) * f(FRESH);
    }
  }

  lemma NewSound(numMaps: nat, numReduces: nat, cfg: Config)
    requires numMaps + numReduces > 0
    ensures Sound(New(numMaps, numReduces), cfg, [])
  {
    var c := New(numMaps, numReduces);
    SumFresh(numMaps, Allowance);
    SumFresh(numReduces, Allowance);
    SumFresh(numMaps, BackupOf);
    SumFresh(numReduces, BackupOf);
    SumFresh(numMaps, DoneOf);
    SumFresh(numReduces, DoneOf);
    assert numMaps > 0 ==> !c.maps[0].state.Done?;
    assert numReduces > 0 ==> !c.reduces[0].state.Done?;
  }

  // ----- reclaiming -----

  lemma {:induction false} ReclaimSums(tasks: seq<Task>, workers: map<WorkerId, Worker>, cfg: Config, now: int)
    ensures var r := ReclaimTasks(tasks, workers, cfg, now);
            && Sum(r, Allowance) == Sum(tasks, Allowance) - Reclaimed(tasks, workers, cfg, now)
            && Sum(r, BackupOf) >= Sum(tasks, BackupOf) - Reclaimed(tasks, workers, cfg, now)
            && Sum(r, DoneOf) == Sum(tasks, DoneOf)
  {
    if tasks != [] {
      assert ReclaimTasks(tasks, workers, cfg, now)[1..] == ReclaimTasks(tasks[1..], workers, cfg, now);
      ReclaimSums(tasks[1..], workers, cfg, now);
    }
  }

  lemma ReclaimPatient(tasks: seq<Task>, workers: map<WorkerId, Worker>, cfg: Config, now: int)
    ensures var r := ReclaimTasks(tasks, workers, cfg, now);
            (Patient(tasks, cfg) ==> Patient(r, cfg)) && (Untouched(tasks) ==> Untouched(r))
  {
    var r := ReclaimTasks(tasks, workers, cfg, now);
    forall t | t in r ensures exists u <- tasks :: t == ReclaimTask(u, workers, cfg, now) {
      var i :| 0 <= i < |r| && r[i] == t;
      assert tasks[i] in tasks;
    }
  }

  /** The same tasks are done, and the log of finished work is the same. */
  predicate SameLog(c: Coord, d: Coord) {
    && d.durations == c.durations && d.counters == c.counters && d.phase == c.phase
    && SameDone(c.maps, d.maps) && SameDone(c.reduces, d.reduces)
  }

  predicate SameDone(a: seq<Task>, b: seq<Task>) {
    |a| == |b| && forall i | 0 <= i < |a| :: a[i].state.Done? <==> b[i].state.Done?
  }

  lemma {:induction false} SameDoneSum(a: seq<Task>, b: seq<Task>)
    requires SameDone(a, b)
    ensures Sum(a, DoneOf) == Sum(b, DoneOf)
  {
    if a != [] {
      SameDoneSum(a[1..], b[1..]);
    }
  }

  lemma SameLogKept(c: Coord, d: Coord, accepted: seq<Report>)
    requires SameLog(c, d) && Recorded(c, accepted)
    ensures Recorded(d, accepted)
    ensures AllDone(c.maps) <==> AllDone(d.maps)
    ensures AllDone(c.reduces) <==> AllDone(d.reduces)
  {
    SameDoneSum(c.maps, d.maps);
    SameDoneSum(c.reduces, d.reduces);
    assert forall kind: Kind :: SameDone(c.Tasks(kind), d.Tasks(kind));
    assert forall kind: Kind :: Sum(c.Tasks(kind), DoneOf) == Sum(d.Tasks(kind), DoneOf);
  }

  lemma ReclaimSound(c: Coord, cfg: Config, now: int, accepted: seq<Report>)
    requires Sound(c, cfg, accepted)
    ensures Sound(Reclaim(c, cfg, now), cfg, accepted)
    ensures SameLog(c, Reclaim(c, cfg, now))
  {
    var workers := BuryWorkers(c.workers, cfg, now);
    var d := Reclaim(c, cfg, now);
    assert SameLog(c, d);
    SameLogKept(c, d, accepted);
    ReclaimSums(c.maps, workers, cfg, now);
    ReclaimSums(c.reduces, workers, cfg, now);
    ReclaimPatient(c.maps, workers, cfg, now);
    ReclaimPatient(c.reduces, workers, cfg, now);
  }

  // ----- handing out tasks -----

  lemma TouchSound(c: Coord, cfg: Config, w: WorkerId, now: int, accepted: seq<Report>)
    requires Sound(c, cfg, accepted)
    ensures Sound(Touch(c, w, now), cfg, accepted) && SameLog(c, Touch(c, w, now))
    ensures Sound(MarkExited(c, w), cfg, accepted) && SameLog(c, MarkExited(c, w))
  {
    SameLogKept(c, Touch(c, w, now), accepted);
    SameLogKept(c, MarkExited(c, w), accepted);
  }

  lemma RegisterSound(c: Coord, cfg: Config, now: int, accepted: seq<Report>)
    requires Sound(c, cfg, accepted)
    ensures Sound(Register(c, now).0, cfg, accepted) && SameLog(c, Register(c, now).0)
  {
    SameLogKept(c, Register(c, now).0, accepted);
  }

  lemma SumPut(c: Coord, kind: Kind, i: nat, t: Task, f: Task -> int)
    requires i < |c.Tasks(kind)|
    ensures Both(c.Put(kind, i, t), f) == Both(c, f) - f(c.Tasks(kind)[i]) + f(t)
  {
    SumUpdate(c.Tasks(kind), f, i, t);
  }

  lemma PutBudgeted(c: Coord, cfg: Config, kind: Kind, i: nat, u: Task, backups: nat)
    requires Budgeted(c, cfg) && i < |c.Tasks(kind)|
    requires var t := c.Tasks(kind)[i];
             && u.failures == t.failures
             && Allowance(u) + backups >= Allowance(t) && BackupOf(u) >= BackupOf(t) + backups
    ensures Budgeted(c.Put(kind, i, u).(backupsLaunched := c.backupsLaunched + backups), cfg)
  {
    SumPut(c, kind, i, u, Allowance);
    SumPut(c, kind, i, u, BackupOf);
    assert c.Tasks(kind)[i] in c.Tasks(kind);
  }

  /** Changing tasks without finishing any keeps the phase right, if the reduce phase has begun or no reduce changes. */
  lemma PutPhased(c: Coord, d: Coord)
    requires Phased(c) && SameLog(c, d) && d.jobErr == c.jobErr && d.closed == c.closed
    requires d.reduces == c.reduces || (AllDone(c.maps) && !c.phase.MapPhase?)
    requires (AllDone(c.maps) <==> AllDone(d.maps)) && (AllDone(c.reduces) <==> AllDone(d.reduces))
    ensures Phased(d)
  {
    hide AllDone, Untouched;
  }

  lemma PutSound(c: Coord, cfg: Config, kind: Kind, i: nat, u: Task, backups: nat, accepted: seq<Report>)
    requires Sound(c, cfg, accepted) && i < |c.Tasks(kind)|
    requires kind.ReduceKind? ==> AllDone(c.maps) && !c.phase.MapPhase?
    requires var t := c.Tasks(kind)[i];
             && u.state.Done? == t.state.Done? && u.failures == t.failures
             && Allowance(u) + backups >= Allowance(t) && BackupOf(u) >= BackupOf(t) + backups
    ensures var d := c.Put(kind, i, u).(backupsLaunched := c.backupsLaunched + backups);
            Sound(d, cfg, accepted) && SameLog(c, d)
  {
    var d := c.Put(kind, i, u).(backupsLaunched := c.backupsLaunched + backups);
    hide Recorded, Budgeted, Allowance, BackupOf;
    SameLogKept(c, d, accepted);
    PutBudgeted(c, cfg, kind, i, u, backups);
    PutPhased(c, d);
  }

  /** Starting an attempt at an idle task, or a first backup of a running one. */
  lemma StartSound(c: Coord, cfg: Config, kind: Kind, i: nat, w: WorkerId, now: int, accepted: seq<Report>)
    requires Sound(c, cfg, accepted) && i < |c.Tasks(kind)|
    requires kind.ReduceKind? ==> AllDone(c.maps) && !c.phase.MapPhase?
    requires var t := c.Tasks(kind)[i]; t.state.Idle? || (t.state.Running? && !t.backup)
    ensures var t := c.Tasks(kind)[i];
            var d := if t.state.Idle? then c.Put(kind, i, StartAttempt(t, w, now))
                     else c.Put(kind, i, StartAttempt(t.(backup := true), w, now))
                       .(backupsLaunched := c.backupsLaunched + 1);
            Sound(d, cfg, accepted) && SameLog(c, d)
  {
    hide Sound, AllDone, SameLog;
    var t := c.Tasks(kind)[i];
    if t.state.Idle? {
      var u := StartAttempt(t, w, now);
      PutSound(c, cfg, kind, i, u, 0, accepted);
      assert c.Put(kind, i, u).(backupsLaunched := c.backupsLaunched + 0) == c.Put(kind, i, u);
    } else {
      PutSound(c, cfg, kind, i, StartAttempt(t.(backup := true), w, now), 1, accepted);
    }
  }

  lemma TryAssignSound(c: Coord, cfg: Config, kind: Kind, w: WorkerId, now: int, accepted: seq<Report>)
    requires cfg.Valid() && Sound(c, cfg, accepted)
    requires kind.ReduceKind? ==> AllDone(c.maps) && !c.phase.MapPhase?
    requires TryAssign(c, cfg, kind, w, now).Some?
    ensures var (d, reply) := TryAssign(c, cfg, kind, w, now).value;
            && Sound(d, cfg, accepted) && SameLog(c, d)
            && reply.Assigned? && reply.kind == kind && reply.id < |c.Tasks(kind)|
            && !c.Tasks(kind)[reply.id].state.Done?
            && d.Tasks(kind)[reply.id].workers == c.Tasks(kind)[reply.id].workers[w := reply.attempt]
  {
    match FirstIdle(c.Tasks(kind))
    case Some(i) => StartSound(c, cfg, kind, i, w, now, accepted);
    case None => StartSound(c, cfg, kind, BackupChoice(c, cfg, kind, w, now).value, w, now, accepted);
  }

  /** Once every task of a kind is done there is none to hand out. */
  lemma DoneLeavesNothing(c: Coord, cfg: Config, kind: Kind, w: WorkerId, now: int)
    requires cfg.Valid() && AllDone(c.Tasks(kind))
    ensures TryAssign(c, cfg, kind, w, now).None?
  {
  }

  lemma EnterReduceSound(c: Coord, cfg: Config, accepted: seq<Report>)
    requires Sound(c, cfg, accepted) && AllDone(c.maps)
    ensures Sound(EnterReduce(c), cfg, accepted) && !EnterReduce(c).phase.MapPhase?
  {
    if c.phase.MapPhase? {
      var d := EnterReduce(c);
      assert forall kind: Kind :: d.Tasks(kind) == c.Tasks(kind);
      UntouchedNotDone(c.reduces);
      assert |Elapsed(accepted, ReduceKind)| == Sum(c.Tasks(ReduceKind), DoneOf);
      assert Logged(d, accepted);
      assert d.counters == c.counters;
    }
  }

  lemma {:induction false} UntouchedNotDone(tasks: seq<Task>)
    requires Untouched(tasks)
    ensures Sum(tasks, DoneOf) == 0
  {
    if tasks != [] {
      assert tasks[0] in tasks && forall t <- tasks[1..] :: t in tasks;
      UntouchedNotDone(tasks[1..]);
    }
  }

  lemma HandOutReduceSound(c: Coord, cfg: Config, w: WorkerId, now: int, accepted: seq<Report>)
    requires cfg.Valid() && Sound(c, cfg, accepted) && AllDone(c.maps) && !c.phase.MapPhase?
    ensures Sound(HandOutReduce(c, cfg, w, now).0, cfg, accepted)
  {
    if TryAssign(c, cfg, ReduceKind, w, now).Some? {
      TryAssignSound(c, cfg, ReduceKind, w, now, accepted);
    } else if AllDone(c.reduces) {
      TouchSound(Finish(c), cfg, w, now, accepted);
    }
  }

  lemma HandOutSound(c: Coord, cfg: Config, w: WorkerId, now: int, accepted: seq<Report>)
    requires cfg.Valid() && Sound(c, cfg, accepted)
    ensures Sound(HandOut(c, cfg, w, now).0, cfg, accepted)
  {
    if TryAssign(c, cfg, MapKind, w, now).Some? {
      TryAssignSound(c, cfg, MapKind, w, now, accepted);
    } else if AllDone(c.maps) {
      EnterReduceSound(c, cfg, accepted);
      HandOutReduceSound(EnterReduce(c), cfg, w, now, accepted);
    }
  }

  /** Answering a request keeps every invariant. */
  lemma RequestSound(c: Coord, cfg: Config, w: WorkerId, now: int, accepted: seq<Report>)
    requires cfg.Valid() && Sound(c, cfg, accepted)
    ensures Sound(Request(c, cfg, w, now).0, cfg, accepted)
  {
    var seen := Touch(c, w, now);
    TouchSound(c, cfg, w, now, accepted);
    if seen.jobErr {
      TouchSound(seen, cfg, w, now, accepted);
    } else {
      ReclaimSound(seen, cfg, now, accepted);
      HandOutSound(Reclaim(seen, cfg, now), cfg, w, now, accepted);
    }
  }

  // ----- accepting results -----

  lemma CountedAppend(before: map<string, int>, accepted: seq<Report>, r: Report, name: string)
    requires Count(before, name) == Total(accepted, name)
    ensures Count(AddCounters(before, r.counters), name) == Total(accepted + [r], name)
  {
    var f := (r: Report) => Count(r.counters, name);
    SumAppend(accepted, [r], f);
    assert Sum([r], f) == f(r) + Sum([r][1..], f) == f(r);
  }

  lemma LoggedAppend(c: Coord, d: Coord, accepted: seq<Report>, r: Report)
    requires Logged(c, accepted) && 0 <= r.id < |c.Tasks(r.kind)| && !c.Tasks(r.kind)[r.id].state.Done?
    requires forall kind: Kind :: |d.Tasks(kind)| == |c.Tasks(kind)|
    requires forall kind: Kind, i: nat | i < |c.Tasks(kind)| ::
               d.Tasks(kind)[i].state.Done? <==> c.Tasks(kind)[i].state.Done? || IsFor(r, kind, i)
    ensures Logged(d, accepted + [r])
  {
    var after := accepted + [r];
    forall kind: Kind, i: nat | i < |d.Tasks(kind)|
      ensures Covered(after, kind, i) <==> Covered(accepted, kind, i) || IsFor(r, kind, i)
    {
      if Covered(accepted, kind, i) {
        var a :| a in accepted && IsFor(a, kind, i);
        assert a in after;
      }
      assert r in after;
    }
    assert !Covered(accepted, r.kind, r.id);
    forall i | 0 <= i < |accepted| ensures !IsFor(accepted[i], r.kind, r.id) {
      assert accepted[i] in accepted;
    }
  }

  /** A report the coordinator still has a use for, from an issued assignment. */
  predicate Fresh(c: Coord, r: Report) {
    && 0 <= r.id < |c.Tasks(r.kind)| && !c.Tasks(r.kind)[r.id].state.Done?
    && (r.kind.ReduceKind? ==> AllDone(c.maps) && !c.phase.MapPhase?)
  }

  lemma FailSound(c: Coord, cfg: Config, accepted: seq<Report>, r: Report)
    requires Sound(c, cfg, accepted) && Fresh(c, r)
    ensures Sound(Failed(c, cfg, r), cfg, accepted)
  {
    FailRecorded(c, cfg, accepted, r);
    FailBudgeted(c, cfg, r);
    FailPhased(c, cfg, r);
  }

  lemma FailRecorded(c: Coord, cfg: Config, accepted: seq<Report>, r: Report)
    requires Recorded(c, accepted) && Fresh(c, r)
    ensures Recorded(Failed(c, cfg, r), accepted)
  {
    hide Recorded, AllDone;
    var d := c.Put(r.kind, r.id, FailTask(c.Tasks(r.kind)[r.id], r.worker));
    SameLogKept(c, d, accepted);
    hide SameLog, SameDone;
    LogIgnoresEnd(d, Failed(c, cfg, r), accepted);
  }

  lemma FailPhased(c: Coord, cfg: Config, r: Report)
    requires Phased(c) && Fresh(c, r)
    ensures Phased(Failed(c, cfg, r))
  {
    var d := Failed(c, cfg, r);
    assert d.Tasks(r.kind)[r.id] in d.Tasks(r.kind);
  }

  lemma LogIgnoresEnd(c: Coord, d: Coord, accepted: seq<Report>)
    requires Recorded(c, accepted)
    requires d.maps == c.maps && d.reduces == c.reduces && d.durations == c.durations && d.counters == c.counters
    requires d.phase == c.phase || d.phase.DonePhase? || d.phase.FailedPhase?
    ensures Recorded(d, accepted)
  {
    assert forall k: Kind :: d.Tasks(k) == c.Tasks(k);
  }

  lemma FailBudgeted(c: Coord, cfg: Config, r: Report)
    requires Budgeted(c, cfg) && Phased(c) && Fresh(c, r)
    ensures Budgeted(Failed(c, cfg, r), cfg)
  {
    var u := FailTask(c.Tasks(r.kind)[r.id], r.worker);
    SumPut(c, r.kind, r.id, u, Allowance);
    SumPut(c, r.kind, r.id, u, BackupOf);
  }

  lemma SucceededBudgeted(c: Coord, cfg: Config, r: Report)
    requires Budgeted(c, cfg) && Fresh(c, r)
    ensures Budgeted(Succeeded(c, r), cfg)
  {
    var t := c.Tasks(r.kind)[r.id];
    SumPut(c, r.kind, r.id, t.(state := Done), Allowance);
    SumPut(c, r.kind, r.id, t.(state := Done), BackupOf);
    assert t in c.Tasks(r.kind);
  }

  lemma SucceededTimed(c: Coord, accepted: seq<Report>, r: Report)
    requires Timed(c, accepted) && Phased(c) && Fresh(c, r)
    ensures Timed(Succeeded(c, r), accepted + [r])
  {
    hide AddCounters, Untouched;
    var d := Succeeded(c, r);
    SumUpdate(c.Tasks(r.kind), DoneOf, r.id, c.Tasks(r.kind)[r.id].(state := Done));
    forall kind: Kind ensures |Elapsed(accepted + [r], kind)| == Sum(d.Tasks(kind), DoneOf) {
      assert |Elapsed(accepted, kind)| == Sum(c.Tasks(kind), DoneOf);
    }
  }

  lemma SucceededRecorded(c: Coord, accepted: seq<Report>, r: Report)
    requires Recorded(c, accepted) && Phased(c) && Fresh(c, r)
    ensures Recorded(Succeeded(c, r), accepted + [r])
  {
    SucceededTimed(c, accepted, r);
    LoggedAppend(c, Succeeded(c, r), accepted, r);
    forall name: string ensures Count(Succeeded(c, r).counters, name) == Total(accepted + [r], name) {
      CountedAppend(c.counters, accepted, r, name);
    }
  }

  lemma SuccessSound(c: Coord, cfg: Config, accepted: seq<Report>, r: Report)
    requires Sound(c, cfg, accepted) && Fresh(c, r)
    ensures Sound(Settle(Succeeded(c, r)), cfg, accepted + [r])
  {
    SucceededBudgeted(c, cfg, r);
    SucceededRecorded(c, accepted, r);
    LogIgnoresEnd(Succeeded(c, r), Settle(Succeeded(c, r)), accepted + [r]);
  }

  /**
   * Taking a report keeps every invariant. Reports come from issued assignments, and none for a reduce task
   * is issued before the reduce phase.
   */
  lemma ReportSound(c: Coord, cfg: Config, accepted: seq<Report>, r: Report, now: int)
    requires Sound(c, cfg, accepted)
    requires r.kind.ReduceKind? ==> AllDone(c.maps) && !c.phase.MapPhase?
    ensures var (d, took) := ReportTask(c, cfg, r, now);
            Sound(d, cfg, if took then accepted + [r] else accepted)
  {
    var seen := Touch(c, r.worker, now);
    TouchSound(c, cfg, r.worker, now, accepted);
    if Fresh(seen, r) {
      if r.success {
        SuccessSound(seen, cfg, accepted, r);
      } else {
        FailSound(seen, cfg, accepted, r);
      }
    }
  }

  // ----- what the invariants amount to -----

  lemma {:induction false} SumAddUp(tasks: seq<Task>)
    ensures Sum(tasks, AttemptOf) + Sum(tasks, Allowance) <= |tasks| + Sum(tasks, FailuresOf)
    ensures Sum(tasks, BackupOf) <= |tasks|
  {
    if tasks != [] {
      SumAddUp(tasks[1..]);
    }
  }

  lemma Distribute(m: int, r: int, k: int)
    ensures (m + r) * (k + 1) == m * (k - 1) + r * (k - 1) + 2 * (m + r)
  {
  }

  lemma FailuresBound(c: Coord, cfg: Config)
    requires cfg.maxAttempts > 0 && Patient(c.maps, cfg) && Patient(c.reduces, cfg)
    ensures Both(c, FailuresOf) + 2 * (|c.maps| + |c.reduces|) <= (|c.maps| + |c.reduces|) * (cfg.maxAttempts + 1)
  {
    var m, r, k := |c.maps|, |c.reduces|, cfg.maxAttempts;
    SumBound(c.maps, FailuresOf, k - 1);
    SumBound(c.reduces, FailuresOf, k - 1);
    Distribute(m, r, k);
  }

  /** Attempts are bounded by the tasks, the failures, the reassignments and the backups. */
  lemma AttemptBounds(c: Coord, cfg: Config)
    requires Budgeted(c, cfg)
    ensures var tasks := |c.maps| + |c.reduces|;
            && Both(c, AttemptOf) <= tasks + Both(c, FailuresOf) + c.reassignments + c.backupsLaunched
            && c.backupsLaunched <= tasks + c.reassignments
            && (cfg.maxAttempts > 0 && !c.jobErr ==>
                  Both(c, AttemptOf) <= tasks * (cfg.maxAttempts + 1) + 2 * c.reassignments)
  {
    SumAddUp(c.maps);
    SumAddUp(c.reduces);
    if cfg.maxAttempts > 0 && !c.jobErr {
      FailuresBound(c, cfg);
    }
  }

  predicate StaysDone(a: seq<Task>, b: seq<Task>) {
    |a| == |b| && forall i | 0 <= i < |a| :: a[i].state.Done? ==> b[i].state.Done?
  }

  /** Finished work stays finished, and the outcome is set once. */
  predicate Extends(c: Coord, d: Coord) {
    && StaysDone(c.maps, d.maps) && StaysDone(c.reduces, d.reduces)
    && (c.closed ==> d.closed && d.phase == c.phase && d.jobErr == c.jobErr)
    && (!c.phase.MapPhase? ==> !d.phase.MapPhase?)
  }

  lemma PutExtends(c: Coord, kind: Kind, i: nat, t: Task)
    requires i < |c.Tasks(kind)| && (c.Tasks(kind)[i].state.Done? ==> t.state.Done?)
    ensures Extends(c, c.Put(kind, i, t))
  {
  }

  lemma ReportExtends(c: Coord, cfg: Config, r: Report, now: int)
    ensures Extends(c, ReportTask(c, cfg, r, now).0)
  {
    var seen := Touch(c, r.worker, now);
    if 0 <= r.id < |seen.Tasks(r.kind)| && !seen.Tasks(r.kind)[r.id].state.Done? {
      var t := seen.Tasks(r.kind)[r.id];
      PutExtends(seen, r.kind, r.id, t.(state := Done));
      PutExtends(seen, r.kind, r.id, FailTask(t, r.worker));
    }
  }

  lemma AssignExtends(c: Coord, cfg: Config, kind: Kind, w: WorkerId, now: int)
    requires cfg.Valid() && TryAssign(c, cfg, kind, w, now).Some?
    ensures Extends(c, TryAssign(c, cfg, kind, w, now).value.0)
  {
  }

  lemma ReclaimExtends(c: Coord, cfg: Config, now: int)
    ensures Extends(c, Reclaim(c, cfg, now))
  {
  }

  lemma HandOutExtends(c: Coord, cfg: Config, w: WorkerId, now: int)
    requires cfg.Valid() && (c.closed ==> !c.phase.MapPhase?)
    ensures Extends(c, HandOut(c, cfg, w, now).0)
  {
    if TryAssign(c, cfg, MapKind, w, now).Some? {
      AssignExtends(c, cfg, MapKind, w, now);
    } else if AllDone(c.maps) {
      var e := EnterReduce(c);
      assert Extends(c, e);
      if TryAssign(e, cfg, ReduceKind, w, now).Some? {
        AssignExtends(e, cfg, ReduceKind, w, now);
      }
    }
  }

  lemma RequestExtends(c: Coord, cfg: Config, w: WorkerId, now: int)
    requires cfg.Valid() && Phased(c)
    ensures Extends(c, Request(c, cfg, w, now).0)
  {
    if !c.jobErr {
      HandOutExtends(Reclaim(Touch(c, w, now), cfg, now), cfg, w, now);
    }
  }

  /** An attempt at `t` by a worker heard from recently, started recently enough. */
  predicate Working(t: Task, workers: map<WorkerId, Worker>, cfg: Config, now: int) {
    && t.state.Running? && now - t.started <= cfg.taskTimeout
    && exists w <- t.workers :: w in workers && workers[w].alive && now - workers[w].lastSeen <= cfg.workerTimeout
  }

  /** A task that stays running through a reclaim has a timely attempt by a live worker. */
  lemma KeptIsWorking(t: Task, workers: map<WorkerId, Worker>, cfg: Config, now: int)
    requires ReclaimTask(t, BuryWorkers(workers, cfg, now), cfg, now).state.Running?
    ensures Working(ReclaimTask(t, BuryWorkers(workers, cfg, now), cfg, now), BuryWorkers(workers, cfg, now), cfg, now)
  {
    var left := BuryWorkers(workers, cfg, now);
    var live := LiveAttempts(t, left);
    var w :| w in live;
  }

  lemma WaitMeansWorking(swept: Coord, c: Coord, cfg: Config, kind: Kind, w: WorkerId, now: int)
    requires cfg.Valid() && swept.Tasks(kind) == Reclaim(c, cfg, now).Tasks(kind)
    requires TryAssign(swept, cfg, kind, w, now).None? && !AllDone(swept.Tasks(kind))
    ensures exists t <- swept.Tasks(kind) :: Working(t, BuryWorkers(c.workers, cfg, now), cfg, now)
  {
    var tasks := swept.Tasks(kind);
    var t :| t in tasks && !t.state.Done?;
    var i :| 0 <= i < |tasks| && tasks[i] == t;
    assert t.state.Running?;
    hide TryAssign, Working;
    KeptIsWorking(c.Tasks(kind)[i], c.workers, cfg, now);
  }

  /** A worker is told to wait only while some task of the current phase is being worked on. */
  lemma WaitIsHonest(c: Coord, cfg: Config, w: WorkerId, now: int)
    requires cfg.Valid() && Request(c, cfg, w, now).1.Wait?
    ensures var d := Request(c, cfg, w, now).0;
            exists t <- d.Tasks(if AllDone(d.maps) then ReduceKind else MapKind) :: Working(t, d.workers, cfg, now)
  {
    var seen := Touch(c, w, now);
    var swept := Reclaim(seen, cfg, now);
    if AllDone(swept.maps) {
      WaitMeansWorking(EnterReduce(swept), seen, cfg, ReduceKind, w, now);
    } else {
      WaitMeansWorking(swept, seen, cfg, MapKind, w, now);
    }
  }

  lemma HandOutExit(c: Coord, cfg: Config, w: WorkerId, now: int)
    requires cfg.Valid() && (c.closed ==> c.phase.DonePhase?) && HandOut(c, cfg, w, now).1.Exit?
    ensures var d := HandOut(c, cfg, w, now).0;
            d.closed && d.phase.DonePhase? && AllDone(d.maps) && AllDone(d.reduces)
  {
  }

  /** A worker is told to exit only when the job is done or aborted. */
  lemma ExitIsFinal(c: Coord, cfg: Config, w: WorkerId, now: int)
    requires cfg.Valid() && Phased(c) && Request(c, cfg, w, now).1.Exit?
    ensures var d := Request(c, cfg, w, now).0;
            d.closed && (d.phase.FailedPhase? || (d.phase.DonePhase? && AllDone(d.maps) && AllDone(d.reduces)))
  {
    if !c.jobErr {
      HandOutExit(Reclaim(Touch(c, w, now), cfg, now), cfg, w, now);
    }
  }

  lemma TryAssignDue(c: Coord, cfg: Config, kind: Kind, w: WorkerId, now: int)
    requires cfg.Valid() && TryAssign(c, cfg, kind, w, now).Some?
    requires kind.ReduceKind? ==> AllDone(c.maps) && !c.phase.MapPhase?
    ensures var (d, reply) := TryAssign(c, cfg, kind, w, now).value;
            Due(c, d, reply) && reply.kind == kind
  {
  }

  /** The reply hands out a new attempt at an unfinished task. */
  predicate Due(c: Coord, d: Coord, reply: Reply) {
    && reply.Assigned? && reply.id < |c.Tasks(reply.kind)| == |d.Tasks(reply.kind)|
    && !c.Tasks(reply.kind)[reply.id].state.Done? && d.Tasks(reply.kind)[reply.id].state.Running?
    && d.Tasks(reply.kind)[reply.id].attempt == c.Tasks(reply.kind)[reply.id].attempt + 1 == reply.attempt
    && (reply.kind.ReduceKind? ==> AllDone(c.maps) && !d.phase.MapPhase?)
  }

  lemma HandOutDue(c: Coord, cfg: Config, w: WorkerId, now: int)
    requires cfg.Valid() && HandOut(c, cfg, w, now).1.Assigned?
    ensures Due(c, HandOut(c, cfg, w, now).0, HandOut(c, cfg, w, now).1)
  {
    if TryAssign(c, cfg, MapKind, w, now).Some? {
      TryAssignDue(c, cfg, MapKind, w, now);
    } else {
      TryAssignDue(EnterReduce(c), cfg, ReduceKind, w, now);
    }
  }

  /** Reclaiming changes neither which tasks are done nor how often they were attempted. */
  predicate SameProgress(a: seq<Task>, b: seq<Task>) {
    SameDone(a, b) && forall i | 0 <= i < |a| :: a[i].attempt == b[i].attempt
  }

  lemma SweptProgress(c: Coord, cfg: Config, w: WorkerId, now: int)
    ensures var swept := Reclaim(Touch(c, w, now), cfg, now);
            SameProgress(c.maps, swept.maps) && SameProgress(c.reduces, swept.reduces)
  {
  }

  /** Only unfinished tasks are handed out, and reduce tasks only once every map task is done. */
  lemma AssignmentIsDue(c: Coord, cfg: Config, w: WorkerId, now: int)
    requires cfg.Valid() && Request(c, cfg, w, now).1.Assigned?
    ensures Due(c, Request(c, cfg, w, now).0, Request(c, cfg, w, now).1)
  {
    var swept := Reclaim(Touch(c, w, now), cfg, now);
    SweptProgress(c, cfg, w, now);
    HandOutDue(swept, cfg, w, now);
  }

  // ----- backups -----

  predicate Ascending(s: seq<int>) {
    forall i, j | 0 <= i < j < |s| :: s[i] <= s[j]
  }

  lemma {:induction false} InsertedItems(x: int, s: seq<int>)
    ensures multiset(InsertSorted(x, s)) == multiset(s) + multiset{x}
    ensures forall y <- InsertSorted(x, s) :: y == x || y in s
  {
    if s != [] {
      InsertedItems(x, s[1..]);
      assert s == [s[0]] + s[1..];
    }
  }

  lemma AscendingCons(x: int, s: seq<int>)
    requires Ascending(s) && forall y <- s :: x <= y
    ensures Ascending([x] + s)
  {
    forall j | 0 < j < |[x] + s| ensures x <= ([x] + s)[j] {
      assert s[j - 1] in s;
    }
  }

  lemma {:induction false} InsertedAscending(x: int, s: seq<int>)
    requires Ascending(s)
    ensures Ascending(InsertSorted(x, s))
  {
    if s == [] {
    } else if x <= s[0] {
      AscendingCons(x, s);
    } else {
      InsertedAscending(x, s[1..]);
      InsertedItems(x, s[1..]);
      AscendingCons(s[0], InsertSorted(x, s[1..]));
    }
  }

  /** The durations in order; the median is taken from the middle of them. */
  lemma {:induction false} SortedAscending(s: seq<int>)
    ensures Ascending(Sorted(s)) && multiset(Sorted(s)) == multiset(s)
  {
    if s != [] {
      SortedAscending(s[1..]);
      InsertedAscending(s[0], Sorted(s[1..]));
      InsertedItems(s[0], Sorted(s[1..]));
      assert s == [s[0]] + s[1..];
    }
  }

  /** What a handed-out backup says about the task it duplicates. */
  predicate Overdue(swept: Coord, cfg: Config, reply: Reply, finished: seq<int>, now: int)
    requires cfg.Valid()
  {
    && reply.Assigned? && reply.id < |swept.Tasks(reply.kind)| && Median(finished) > 0
    && var t := swept.Tasks(reply.kind)[reply.id];
       t.state.Running? && !t.backup && now - t.started > Limit(Median(finished), cfg)
  }

  /** While tasks of a kind are unfinished, the recorded durations are of that kind. */
  lemma DurationsOf(c: Coord, cfg: Config, kind: Kind, w: WorkerId, now: int, accepted: seq<Report>)
    requires cfg.Valid() && Sound(c, cfg, accepted) && !c.jobErr && TryAssign(c, cfg, kind, w, now).Some?
    requires kind.ReduceKind? ==> !c.phase.MapPhase?
    ensures c.durations == Elapsed(accepted, kind)
  {
    if AllDone(c.Tasks(kind)) {
      DoneLeavesNothing(c, cfg, kind, w, now);
    }
  }

  lemma HandOutBackup(c: Coord, cfg: Config, w: WorkerId, now: int, accepted: seq<Report>)
    requires cfg.Valid() && Sound(c, cfg, accepted) && !c.jobErr
    requires HandOut(c, cfg, w, now).0.backupsLaunched > c.backupsLaunched
    ensures var reply := HandOut(c, cfg, w, now).1;
            reply.Assigned? && Overdue(c, cfg, reply, Elapsed(accepted, reply.kind), now)
  {
    if TryAssign(c, cfg, MapKind, w, now).Some? {
      DurationsOf(c, cfg, MapKind, w, now, accepted);
    } else {
      var e := EnterReduce(c);
      EnterReduceSound(c, cfg, accepted);
      ReduceBackup(e, cfg, w, now);
      DurationsOf(e, cfg, ReduceKind, w, now, accepted);
    }
  }

  lemma ReduceBackup(c: Coord, cfg: Config, w: WorkerId, now: int)
    requires cfg.Valid() && HandOutReduce(c, cfg, w, now).0.backupsLaunched > c.backupsLaunched
    ensures TryAssign(c, cfg, ReduceKind, w, now).Some?
    ensures Overdue(c, cfg, TryAssign(c, cfg, ReduceKind, w, now).value.1, c.durations, now)
  {
  }

  /**
   * A backup is launched only for a task that has been running longer than the threshold times the median of
   * the accepted results of its own phase.
   */
  lemma BackupsMeetTheMedian(c: Coord, cfg: Config, w: WorkerId, now: int, accepted: seq<Report>)
    requires cfg.Valid() && Sound(c, cfg, accepted)
    requires Request(c, cfg, w, now).0.backupsLaunched > c.backupsLaunched
    ensures var reply := Request(c, cfg, w, now).1;
            && reply.Assigned?
            && Overdue(Reclaim(Touch(c, w, now), cfg, now), cfg, reply, Elapsed(accepted, reply.kind), now)
  {
    TouchSound(c, cfg, w, now, accepted);
    ReclaimSound(Touch(c, w, now), cfg, now, accepted);
    HandOutBackup(Reclaim(Touch(c, w, now), cfg, now), cfg, w, now, accepted);
  }

  /** Only the task a report is for may have become done, and only by success. */
  predicate FinishesOnly(c: Coord, d: Coord, r: Report) {
    forall kind: Kind, i: nat | i < |c.Tasks(kind)| && i < |d.Tasks(kind)| && d.Tasks(kind)[i].state.Done? ::
      c.Tasks(kind)[i].state.Done? || (IsFor(r, kind, i) && r.success)
  }

  lemma PutFinishes(c: Coord, d: Coord, r: Report, t: Task)
    requires 0 <= r.id < |c.Tasks(r.kind)| && (t.state.Done? ==> r.success)
    requires d.maps == c.Put(r.kind, r.id, t).maps && d.reduces == c.Put(r.kind, r.id, t).reduces
    ensures FinishesOnly(c, d, r)
  {
  }

  /** A report finishes at most the task it is for. */
  lemma ReportedOnly(c: Coord, cfg: Config, r: Report, now: int)
    ensures FinishesOnly(c, ReportTask(c, cfg, r, now).0, r)
  {
    var seen := Touch(c, r.worker, now);
    var d := ReportTask(c, cfg, r, now).0;
    if 0 <= r.id < |seen.Tasks(r.kind)| && !seen.Tasks(r.kind)[r.id].state.Done? {
      var t := seen.Tasks(r.kind)[r.id];
      hide FinishesOnly, AllDone, AddCounters;
      PutFinishes(c, d, r, if r.success then t.(state := Done) else FailTask(t, r.worker));
    }
  }

  lemma AssignFinishesNothing(c: Coord, cfg: Config, kind: Kind, w: WorkerId, now: int)
    requires cfg.Valid() && TryAssign(c, cfg, kind, w, now).Some?
    ensures var d := TryAssign(c, cfg, kind, w, now).value.0; SameDone(c.maps, d.maps) && SameDone(c.reduces, d.reduces)
  {
  }

  lemma HandOutFinishesNothing(c: Coord, cfg: Config, w: WorkerId, now: int)
    requires cfg.Valid()
    ensures var d := HandOut(c, cfg, w, now).0; SameDone(c.maps, d.maps) && SameDone(c.reduces, d.reduces)
  {
    hide TryAssign;
    if TryAssign(c, cfg, MapKind, w, now).Some? {
      AssignFinishesNothing(c, cfg, MapKind, w, now);
    } else if TryAssign(EnterReduce(c), cfg, ReduceKind, w, now).Some? {
      AssignFinishesNothing(EnterReduce(c), cfg, ReduceKind, w, now);
    }
  }

  lemma RequestFinishesNothing(c: Coord, cfg: Config, w: WorkerId, now: int)
    requires cfg.Valid()
    ensures var d := Request(c, cfg, w, now).0; SameDone(c.maps, d.maps) && SameDone(c.reduces, d.reduces)
  {
    hide HandOut, ReclaimTasks;
    SweptProgress(c, cfg, w, now);
    HandOutFinishesNothing(Reclaim(Touch(c, w, now), cfg, now), cfg, w, now);
  }
}
