/**
 * What the coordinator's calls do to workers and tasks, said without the functions that do it: who is presumed lost,
 * which tasks are taken back, which one a request is answered with, and what a report changes.
 */
module CoordinatorRules {
  import opened Base
  import opened CoordinatorSpec
  import opened CoordinatorInvariants

  // ----- heartbeats -----

  /** A call by a registered worker is a sign of life of that worker, and of no other. */
  lemma TouchExactly(c: Coord, w: WorkerId, now: int)
    ensures var d := Touch(c, w, now);
            && d == c.(workers := d.workers) && d.workers.Keys == c.workers.Keys
            && forall v <- c.workers ::
                 d.workers[v] == if v == w then Worker(now, true, c.workers[v].exited) else c.workers[v]
  {
  }

  lemma RegisterExactly(c: Coord, now: int)
    ensures var (d, id) := Register(c, now);
            && id == c.nextId + 1 && d == c.(nextId := id, workers := d.workers)
            && d.workers.Keys == c.workers.Keys + {id}
            && forall v <- d.workers :: d.workers[v] == if v == id then Worker(now, true, false) else c.workers[v]
  {
  }

  // ----- reclaiming -----

  predicate Heard(w: Worker, cfg: Config, now: int) {
    w.alive && now - w.lastSeen <= cfg.workerTimeout
  }

  /** The attempts at a task by workers heard from recently. */
  function HeardAttempts(t: Task, workers: map<WorkerId, Worker>, cfg: Config, now: int): map<WorkerId, nat> {
    map w <- t.workers | w in workers && Heard(workers[w], cfg, now) :: t.workers[w]
  }

  lemma LiveIsHeard(t: Task, workers: map<WorkerId, Worker>, cfg: Config, now: int)
    ensures LiveAttempts(t, BuryWorkers(workers, cfg, now)) == HeardAttempts(t, workers, cfg, now)
    ensures t.state.Running? ==>
              (Working(t, workers, cfg, now) <==>
                 HeardAttempts(t, workers, cfg, now) != map[] && now - t.started <= cfg.taskTimeout)
  {
    var heard := HeardAttempts(t, workers, cfg, now);
    assert LiveAttempts(t, BuryWorkers(workers, cfg, now)).Keys == heard.Keys;
    if heard != map[] {
      var w :| w in heard;
    }
    if w :| w in t.workers && w in workers && Heard(workers[w], cfg, now) {
      assert w in heard;
    }
  }

  /**
   * A running task stays running through a reclaim exactly when some worker heard from recently is at it and it
   * started recently enough. It then keeps everything but the attempts of workers not heard from; otherwise it goes
   * back to idle with no attempts and no backup.
   */
  lemma ReclaimExactly(c: Coord, cfg: Config, now: int, kind: Kind, i: nat)
    requires i < |c.Tasks(kind)|
    ensures var d := Reclaim(c, cfg, now);
            && |d.Tasks(kind)| == |c.Tasks(kind)|
            && var t, u := c.Tasks(kind)[i], d.Tasks(kind)[i];
               u == if !t.state.Running? then t
                    else if Working(t, c.workers, cfg, now) then t.(workers := HeardAttempts(t, c.workers, cfg, now))
                    else t.(state := Idle, backup := false, workers := map[])
  {
    LiveIsHeard(c.Tasks(kind)[i], c.workers, cfg, now);
  }

  /** The running tasks nobody is working on. */
  function Abandoned(tasks: seq<Task>, workers: map<WorkerId, Worker>, cfg: Config, now: int): set<nat> {
    set i: nat | i < |tasks| && tasks[i].state.Running? && !Working(tasks[i], workers, cfg, now)
  }

  lemma {:induction false} ReclaimedLast(tasks: seq<Task>, t: Task, workers: map<WorkerId, Worker>, cfg: Config,
                                         now: int)
    ensures Reclaimed(tasks + [t], workers, cfg, now) ==
            Reclaimed(tasks, workers, cfg, now) + if MustReclaim(t, workers, cfg, now) then 1 else 0
  {
    if tasks == [] {
      assert [] + [t] == [t] && [t][1..] == [];
    } else {
      assert (tasks + [t])[1..] == tasks[1..] + [t];
      ReclaimedLast(tasks[1..], t, workers, cfg, now);
    }
  }

  lemma AbandonedLast(tasks: seq<Task>, workers: map<WorkerId, Worker>, cfg: Config, now: int)
    requires tasks != []
    ensures var n := |tasks| - 1;
            var lost := tasks[n].state.Running? && !Working(tasks[n], workers, cfg, now);
            Abandoned(tasks, workers, cfg, now) == Abandoned(tasks[..n], workers, cfg, now) + if lost then {n} else {}
  {
    hide Working;
  }

  lemma {:induction false} ReclaimedAbandoned(tasks: seq<Task>, workers: map<WorkerId, Worker>, cfg: Config, now: int)
    ensures Reclaimed(tasks, BuryWorkers(workers, cfg, now), cfg, now) == |Abandoned(tasks, workers, cfg, now)|
  {
    if tasks != [] {
      var n := |tasks| - 1;
      var before := Abandoned(tasks[..n], workers, cfg, now);
      assert tasks == tasks[..n] + [tasks[n]];
      ReclaimedLast(tasks[..n], tasks[n], BuryWorkers(workers, cfg, now), cfg, now);
      ReclaimedAbandoned(tasks[..n], workers, cfg, now);
      LiveIsHeard(tasks[n], workers, cfg, now);
      AbandonedLast(tasks, workers, cfg, now);
    }
  }

  /** Workers not heard from are presumed lost and counted, abandoned tasks are counted, and nothing else changes. */
  lemma ReclaimCounts(c: Coord, cfg: Config, now: int)
    ensures var d := Reclaim(c, cfg, now);
            && d == c.(maps := d.maps, reduces := d.reduces, workers := d.workers, lostWorkers := d.lostWorkers,
                       reassignments := d.reassignments)
            && d.reassignments == c.reassignments
                 + |Abandoned(c.maps, c.workers, cfg, now)| + |Abandoned(c.reduces, c.workers, cfg, now)|
            && d.lostWorkers == c.lostWorkers
                 + |set w <- c.workers | c.workers[w].alive && now - c.workers[w].lastSeen > cfg.workerTimeout|
            && d.workers.Keys == c.workers.Keys
            && forall w <- c.workers :: d.workers[w] == c.workers[w].(alive := Heard(c.workers[w], cfg, now))
  {
    ReclaimedAbandoned(c.maps, c.workers, cfg, now);
    ReclaimedAbandoned(c.reduces, c.workers, cfg, now);
    assert SilentWorkers(c.workers, cfg, now) ==
           set w <- c.workers | c.workers[w].alive && now - c.workers[w].lastSeen > cfg.workerTimeout;
  }

  // ----- the median -----

  function Below(m: int): int -> int {
    (x: int) => if x < m then 1 else 0
  }

  function UpTo(m: int): int -> int {
    (x: int) => if x <= m then 1 else 0
  }

  /** No more than half are below `m` and more than half are not above it: the upper one of two in the middle. */
  ghost predicate IsMedian(s: seq<int>, m: int) {
    m in s && Sum(s, Below(m)) <= |s| / 2 < Sum(s, UpTo(m))
  }

  lemma {:induction false} SumOfBag(a: seq<int>, b: seq<int>, f: int -> int)
    requires multiset(a) == multiset(b)
    ensures Sum(a, f) == Sum(b, f)
  {
    SameBagSameLength(a, b);
    if a != [] {
      var j := FindInBag(a, b, 0);
      TailBag(a);
      RemoveAtBag(b, j);
      SumOfBag(a[1..], RemoveAt(b, j), f);
      assert b == b[..j] + ([b[j]] + b[j + 1..]);
      SumAppend(b[..j], [b[j]] + b[j + 1..], f);
      SumAppend([b[j]], b[j + 1..], f);
      SumAppend(b[..j], b[j + 1..], f);
      assert Sum([b[j]], f) == f(b[j]) + Sum([b[j]][1..], f) == f(b[j]);
    }
  }

  lemma {:induction false} SumAll<T>(s: seq<T>, f: T -> int, v: int)
    requires forall x <- s :: f(x) == v
    ensures Sum(s, f) == v * |s|
  {
    if s != [] {
      SumAll(s[1..], f, v);
      assert v * |s| == v + v * (|s| - 1);
    }
  }

  lemma {:induction false} SumBetween<T>(s: seq<T>, f: T -> int)
    requires forall x <- s :: 0 <= f(x) <= 1
    ensures 0 <= Sum(s, f) <= |s|
  {
    if s != [] {
      SumBetween(s[1..], f);
    }
  }

  /** In an ascending sequence no more than `k` items are below the one at `k`, and more than `k` are not above it. */
  lemma AscendingCounts(s: seq<int>, k: nat)
    requires Ascending(s) && k < |s|
    ensures Sum(s, Below(s[k])) <= k < Sum(s, UpTo(s[k]))
  {
    var m := s[k];
    assert s == s[..k] + s[k..] && s == s[..k + 1] + s[k + 1..];
    SumAppend(s[..k], s[k..], Below(m));
    SumAppend(s[..k + 1], s[k + 1..], UpTo(m));
    SumBetween(s[..k], Below(m));
    SumBetween(s[k + 1..], UpTo(m));
    forall x | x in s[k..] ensures Below(m)(x) == 0 {
      var j :| k <= j < |s| && s[j] == x;
    }
    SumAll(s[k..], Below(m), 0);
    forall x | x in s[..k + 1] ensures UpTo(m)(x) == 1 {
      var j :| 0 <= j < k + 1 && s[j] == x;
    }
    SumAll(s[..k + 1], UpTo(m), 1);
  }

  /** What the stragglers are measured against is the upper median of the finished durations. */
  lemma MedianCounts(s: seq<int>)
    requires |s| >= 2
    ensures IsMedian(s, Median(s))
  {
    SortedAscending(s);
    var r, k := Sorted(s), |s| / 2;
    AscendingCounts(r, k);
    SumOfBag(r, s, Below(r[k]));
    SumOfBag(r, s, UpTo(r[k]));
    assert r[k] in multiset(s);
  }

  lemma {:induction false} SumMonotone<T>(s: seq<T>, f: T -> int, g: T -> int)
    requires forall x <- s :: f(x) <= g(x)
    ensures Sum(s, f) <= Sum(s, g)
  {
    if s != [] {
      SumMonotone(s[1..], f, g);
    }
  }

  /** There is only one. */
  lemma MedianUnique(s: seq<int>, a: int, b: int)
    requires IsMedian(s, a) && IsMedian(s, b)
    ensures a == b
  {
    if a < b {
      SumMonotone(s, UpTo(a), Below(b));
    } else if b < a {
      SumMonotone(s, UpTo(b), Below(a));
    }
  }

  // ----- choosing a task -----

  /** The first idle task. */
  predicate FirstWaiting(tasks: seq<Task>, i: nat) {
    i < |tasks| && tasks[i].state.Idle? && forall j | 0 <= j < i :: !tasks[j].state.Idle?
  }

  /** The task has no backup, `w` is not at it, and it has run longer than the threshold times `m`. */
  predicate Late(t: Task, w: WorkerId, cfg: Config, now: int, m: int) {
    && t.state.Running? && !t.backup && w !in t.workers
    && now > t.started && (now - t.started) * cfg.thresholdDen > m * cfg.thresholdNum
  }

  /** The late task that has run longest, the first of them on a tie. */
  predicate Latest(tasks: seq<Task>, w: WorkerId, cfg: Config, now: int, m: int, i: nat) {
    && i < |tasks| && Late(tasks[i], w, cfg, now, m)
    && forall j | 0 <= j < |tasks| && Late(tasks[j], w, cfg, now, m) ::
         tasks[i].started < tasks[j].started || (tasks[i].started == tasks[j].started && i <= j)
  }

  /** With nothing idle, task `i` is the one to run a second time. */
  ghost predicate ToBackUp(c: Coord, cfg: Config, kind: Kind, w: WorkerId, now: int, i: nat) {
    && (forall t <- c.Tasks(kind) :: !t.state.Idle?)
    && cfg.enableBackups && |c.durations| >= 2
    && exists m :: IsMedian(c.durations, m) && m > 0 && Latest(c.Tasks(kind), w, cfg, now, m, i)
  }

  /** A task has run longer than the rounded-down limit exactly when it has run longer than the fraction of `m`. */
  lemma OverLimit(run: int, m: int, cfg: Config)
    requires cfg.Valid()
    ensures run > Limit(m, cfg) <==> run * cfg.thresholdDen > m * cfg.thresholdNum
  {
    var den, all := cfg.thresholdDen, m * cfg.thresholdNum;
    var q, r := all / den, all % den;
    assert all == den * q + r && 0 <= r < den;
    assert (run - q) * den == run * den - q * den;
    if run > q {
      assert (run - q) * den >= den by { Grows(run - q, den); }
    } else {
      assert (q - run) * den >= 0;
    }
  }

  lemma Grows(a: int, d: nat)
    requires a >= 1
    ensures a * d >= d
  {
  }

  lemma StragglingIsLate(t: Task, w: WorkerId, cfg: Config, now: int, m: int)
    requires cfg.Valid()
    ensures Straggling(t, w, now, Limit(m, cfg)) <==> Late(t, w, cfg, now, m)
  {
    OverLimit(now - t.started, m, cfg);
  }

  lemma LongestIsLatest(tasks: seq<Task>, w: WorkerId, cfg: Config, now: int, m: int)
    requires cfg.Valid()
    ensures match LongestStraggler(tasks, w, now, Limit(m, cfg))
            case None => forall i: nat :: !Latest(tasks, w, cfg, now, m, i)
            case Some(i) => Latest(tasks, w, cfg, now, m, i)
  {
    forall t: Task ensures Straggling(t, w, now, Limit(m, cfg)) <==> Late(t, w, cfg, now, m) {
      StragglingIsLate(t, w, cfg, now, m);
    }
    hide Straggling, Late;
    var r := LongestStraggler(tasks, w, now, Limit(m, cfg));
    forall i: nat | r.None? ensures !Latest(tasks, w, cfg, now, m, i) {
      assert i < |tasks| ==> tasks[i] in tasks;
    }
  }

  lemma BackupExactly(c: Coord, cfg: Config, kind: Kind, w: WorkerId, now: int)
    requires cfg.Valid() && forall t <- c.Tasks(kind) :: !t.state.Idle?
    ensures match BackupChoice(c, cfg, kind, w, now)
            case None => forall i: nat :: !ToBackUp(c, cfg, kind, w, now, i)
            case Some(i) => ToBackUp(c, cfg, kind, w, now, i)
  {
    hide LongestStraggler, Latest, IsMedian;
    if cfg.enableBackups && |c.durations| >= 2 {
      var m := Median(c.durations);
      MedianCounts(c.durations);
      hide Median, Limit;
      LongestIsLatest(c.Tasks(kind), w, cfg, now, m);
      forall i: nat, n | ToBackUp(c, cfg, kind, w, now, i) && IsMedian(c.durations, n) ensures n == m {
        MedianUnique(c.durations, m, n);
      }
    }
  }

  /** The task after one more attempt by `w`. */
  function Attempted(t: Task, w: WorkerId, now: int, again: bool): Task {
    Task(Running, t.attempt + 1, if t.state.Running? then t.started else now, t.workers[w := t.attempt + 1], t.failures,
         t.backup || again)
  }

  /** A new attempt at task `i` goes to `w`: the first idle one, or the one to back up. */
  ghost predicate Handed(c: Coord, d: Coord, cfg: Config, kind: Kind, w: WorkerId, now: int, i: nat) {
    && i < |c.Tasks(kind)|
    && if FirstWaiting(c.Tasks(kind), i)
       then d == c.Put(kind, i, Attempted(c.Tasks(kind)[i], w, now, false))
       else ToBackUp(c, cfg, kind, w, now, i)
            && d == c.Put(kind, i, Attempted(c.Tasks(kind)[i], w, now, true)).(backupsLaunched := c.backupsLaunched + 1)
  }

  ghost predicate NothingToHand(c: Coord, cfg: Config, kind: Kind, w: WorkerId, now: int) {
    (forall t <- c.Tasks(kind) :: !t.state.Idle?) && forall i: nat :: !ToBackUp(c, cfg, kind, w, now, i)
  }

  lemma TryAssignExactly(c: Coord, cfg: Config, kind: Kind, w: WorkerId, now: int)
    requires cfg.Valid()
    ensures match TryAssign(c, cfg, kind, w, now)
            case None => NothingToHand(c, cfg, kind, w, now)
            case Some((d, reply)) =>
              && reply.Assigned? && reply.kind == kind && Handed(c, d, cfg, kind, w, now, reply.id)
              && reply.attempt == c.Tasks(kind)[reply.id].attempt + 1
  {
    hide ToBackUp, BackupChoice;
    if FirstIdle(c.Tasks(kind)).None? {
      BackupExactly(c, cfg, kind, w, now);
      if BackupChoice(c, cfg, kind, w, now).Some? {
        BackupInside(c, cfg, kind, w, now, BackupChoice(c, cfg, kind, w, now).value);
      }
    }
  }

  lemma BackupInside(c: Coord, cfg: Config, kind: Kind, w: WorkerId, now: int, i: nat)
    requires ToBackUp(c, cfg, kind, w, now, i)
    ensures i < |c.Tasks(kind)| && c.Tasks(kind)[i].state.Running?
  {
  }

  /** The state in which a request finds the reduce tasks: the first time, the durations start afresh. */
  predicate ReduceEntered(c: Coord, d: Coord) {
    d == if c.phase.MapPhase? then c.(phase := ReducePhase, durations := []) else c
  }

  /** The worker is marked as told to exit, and no more happened but perhaps the end of the job. */
  predicate Dismissed(c: Coord, d: Coord, w: WorkerId) {
    && d == c.(workers := d.workers, closed := d.closed, phase := d.phase)
    && d.workers == if w in c.workers then c.workers[w := c.workers[w].(exited := true)] else c.workers
  }

  /**
   * What a request is answered with, once the caller has been heard and lost tasks have been reclaimed: a map task if
   * there is one to hand out, a reduce task if all maps are done and there is one, otherwise the word to wait while
   * something is unfinished, and the word to exit when nothing is or the job was aborted.
   */
  lemma RequestExactly(c: Coord, cfg: Config, w: WorkerId, now: int)
    requires cfg.Valid()
    ensures var (d, reply) := Request(c, cfg, w, now);
            var swept := Reclaim(Touch(c, w, now), cfg, now);
            var entered := EnterReduce(swept);
            && ReduceEntered(swept, entered)
            && match reply
               case Assigned(kind, i, attempt) =>
                 && !c.jobErr
                 && var from := if kind.MapKind? then swept else entered;
                    && Handed(from, d, cfg, kind, w, now, i) && attempt == from.Tasks(kind)[i].attempt + 1
                    && (kind.ReduceKind? ==> AllDone(swept.maps) && NothingToHand(swept, cfg, MapKind, w, now))
               case Wait =>
                 && !c.jobErr && NothingToHand(swept, cfg, MapKind, w, now)
                 && if !AllDone(swept.maps) then d == swept
                    else !AllDone(swept.reduces) && NothingToHand(entered, cfg, ReduceKind, w, now) && d == entered
               case Exit =>
                 if c.jobErr then Dismissed(Touch(c, w, now), d, w) && d.closed == c.closed && d.phase == c.phase
                 else && AllDone(swept.maps) && AllDone(swept.reduces) && Dismissed(entered, d, w)
                      && d.closed && d.phase == if c.closed then entered.phase else DonePhase
  {
    hide NothingToHand, Handed, TryAssign;
    if !c.jobErr {
      var swept := Reclaim(Touch(c, w, now), cfg, now);
      TryAssignExactly(swept, cfg, MapKind, w, now);
      TryAssignExactly(EnterReduce(swept), cfg, ReduceKind, w, now);
    }
  }

  // ----- taking a report -----

  /** The report is for an unfinished task. */
  predicate Counts(c: Coord, r: Report) {
    0 <= r.id < |c.Tasks(r.kind)| && !c.Tasks(r.kind)[r.id].state.Done?
  }

  /** The failure brings the task to the limit. */
  predicate LastStraw(c: Coord, cfg: Config, r: Report)
    requires Counts(c, r)
  {
    cfg.maxAttempts > 0 && c.Tasks(r.kind)[r.id].failures + 1 >= cfg.maxAttempts
  }

  /**
   * A report for a task that is done, or that there is none of, changes nothing but the sign of life. A failure sends
   * the task back to idle, without the reporter, and counts. A success finishes the task, and its counters and its
   * duration are added.
   */
  lemma ReportExactly(c: Coord, cfg: Config, r: Report, now: int)
    ensures var (d, took) := ReportTask(c, cfg, r, now);
            var seen := Touch(c, r.worker, now);
            && took == (Counts(c, r) && r.success)
            && (!Counts(c, r) ==> d == seen)
            && (Counts(c, r) ==>
                  var t := c.Tasks(r.kind)[r.id];
                  var u := if r.success then t.(state := Done)
                           else Task(Idle, t.attempt, t.started, t.workers - {r.worker}, t.failures + 1, t.backup);
                  && d == seen.Put(r.kind, r.id, u)
                            .(durations := d.durations, counters := d.counters,
                              closed := d.closed, phase := d.phase, jobErr := d.jobErr)
                  && d.durations == c.durations + (if r.success then [r.elapsed] else [])
                  && forall name: string ::
                       Count(d.counters, name) ==
                         Count(c.counters, name) + if r.success then Count(r.counters, name) else 0)
  {
    hide AllDone, AddCounters, Count;
    if Counts(c, r) && r.success {
      SuccessExactly(Touch(c, r.worker, now), r);
      SettleKeeps(Succeeded(Touch(c, r.worker, now), r));
    }
  }

  lemma SuccessExactly(c: Coord, r: Report)
    requires Counts(c, r)
    ensures var d := Succeeded(c, r);
            && d == c.Put(r.kind, r.id, c.Tasks(r.kind)[r.id].(state := Done))
                     .(durations := c.durations + [r.elapsed], counters := d.counters)
            && forall name: string :: Count(d.counters, name) == Count(c.counters, name) + Count(r.counters, name)
  {
  }

  lemma SettleKeeps(c: Coord)
    ensures Settle(c) == c.(closed := Settle(c).closed, phase := Settle(c).phase, jobErr := Settle(c).jobErr)
  {
    hide AllDone;
  }

  /** A report aborts an open job exactly when it is the failure that brings an unfinished task to the limit. */
  lemma AbortsExactly(c: Coord, cfg: Config, r: Report, now: int)
    requires !c.closed && !c.jobErr
    ensures var d := ReportTask(c, cfg, r, now).0;
            d.jobErr <==> Counts(c, r) && !r.success && LastStraw(c, cfg, r)
  {
  }

  /** A job ends with the report that aborts it or finishes its last task, and a job that has ended stays as it is. */
  lemma EndsExactly(c: Coord, cfg: Config, r: Report, now: int)
    ensures var d := ReportTask(c, cfg, r, now).0;
            var aborted := Counts(c, r) && !r.success && LastStraw(c, cfg, r);
            var finished := Counts(c, r) && r.success && AllDone(d.maps) && AllDone(d.reduces);
            if c.closed then d.closed && d.phase == c.phase && d.jobErr == c.jobErr
            else
              && d.closed == (aborted || finished)
              && d.phase == if aborted then FailedPhase else if finished then DonePhase else c.phase
  {
  }

  /** Some task has failed as often as it may. */
  ghost predicate FailedTooOften(c: Coord, cfg: Config) {
    cfg.maxAttempts > 0 && exists kind: Kind, i: nat :: Failing(c, cfg, kind, i)
  }

  predicate Failing(c: Coord, cfg: Config, kind: Kind, i: nat) {
    i < |c.Tasks(kind)| && c.Tasks(kind)[i].failures >= cfg.maxAttempts
  }

  /** No call but a report aborts a job, and failures are never forgotten. */
  ghost predicate Remembers(c: Coord, d: Coord) {
    d.jobErr == c.jobErr && forall kind: Kind, i: nat :: FailuresKept(c, d, kind, i)
  }

  predicate FailuresKept(c: Coord, d: Coord, kind: Kind, i: nat) {
    i < |c.Tasks(kind)| ==> i < |d.Tasks(kind)| && d.Tasks(kind)[i].failures >= c.Tasks(kind)[i].failures
  }

  lemma RequestRemembers(c: Coord, cfg: Config, w: WorkerId, now: int)
    requires cfg.Valid()
    ensures Remembers(c, Request(c, cfg, w, now).0)
  {
    var seen := Touch(c, w, now);
    SameTasksRemember(c, seen);
    if c.jobErr {
      SameTasksRemember(c, MarkExited(seen, w));
    } else {
      var swept := Reclaim(seen, cfg, now);
      ReclaimRemembers(seen, cfg, now);
      HandOutRemembers(swept, cfg, w, now);
      hide Reclaim, HandOut, Touch;
      RemembersOn(c, seen, swept);
      RemembersOn(c, swept, HandOut(swept, cfg, w, now).0);
    }
  }

  lemma RemembersOn(a: Coord, b: Coord, c: Coord)
    requires Remembers(a, b) && Remembers(b, c)
    ensures Remembers(a, c)
  {
    forall kind: Kind, i: nat ensures FailuresKept(a, c, kind, i) {
      assert FailuresKept(a, b, kind, i) && FailuresKept(b, c, kind, i);
    }
  }

  lemma SameTasksRemember(c: Coord, d: Coord)
    requires d.jobErr == c.jobErr && d.maps == c.maps && d.reduces == c.reduces
    ensures Remembers(c, d)
  {
    assert forall kind: Kind :: d.Tasks(kind) == c.Tasks(kind);
  }

  lemma HandOutRemembers(c: Coord, cfg: Config, w: WorkerId, now: int)
    requires cfg.Valid()
    ensures Remembers(c, HandOut(c, cfg, w, now).0)
  {
    var e, d := EnterReduce(c), HandOut(c, cfg, w, now).0;
    AssignRemembers(c, cfg, MapKind, w, now);
    AssignRemembers(e, cfg, ReduceKind, w, now);
    SameTasksRemember(c, e);
    hide TryAssign, AllDone, Remembers;
    if TryAssign(c, cfg, MapKind, w, now).None? {
      if AllDone(c.maps) && TryAssign(e, cfg, ReduceKind, w, now).Some? {
        RemembersOn(c, e, d);
      } else {
        SameTasksRemember(c, d);
      }
    }
  }

  lemma AssignRemembers(c: Coord, cfg: Config, kind: Kind, w: WorkerId, now: int)
    requires cfg.Valid()
    ensures match TryAssign(c, cfg, kind, w, now) case None => true case Some((d, _)) => Remembers(c, d)
  {
  }

  lemma ReclaimRemembers(c: Coord, cfg: Config, now: int)
    ensures Remembers(c, Reclaim(c, cfg, now))
  {
  }

  lemma RemembersFailures(c: Coord, d: Coord, cfg: Config)
    requires Remembers(c, d) && (c.jobErr ==> FailedTooOften(c, cfg))
    ensures d.jobErr ==> FailedTooOften(d, cfg)
  {
    if d.jobErr {
      var kind: Kind, i: nat :| Failing(c, cfg, kind, i);
      assert FailuresKept(c, d, kind, i) && Failing(d, cfg, kind, i);
    }
  }

  lemma ReportExhausts(c: Coord, cfg: Config, r: Report, now: int)
    requires c.jobErr ==> FailedTooOften(c, cfg)
    ensures var d := ReportTask(c, cfg, r, now).0; d.jobErr ==> FailedTooOften(d, cfg)
  {
    var d := ReportTask(c, cfg, r, now).0;
    ReportForgetsNothing(c, cfg, r, now);
    if c.jobErr {
      var kind: Kind, i: nat :| Failing(c, cfg, kind, i);
      assert FailuresKept(c, d, kind, i) && Failing(d, cfg, kind, i);
    } else if d.jobErr {
      assert Failing(d, cfg, r.kind, r.id);
    }
  }

  lemma PutForgetsNothing(c: Coord, d: Coord, r: Report, t: Task)
    requires 0 <= r.id < |c.Tasks(r.kind)| && t.failures >= c.Tasks(r.kind)[r.id].failures
    requires d.maps == c.Put(r.kind, r.id, t).maps && d.reduces == c.Put(r.kind, r.id, t).reduces
    ensures d.Tasks(r.kind)[r.id] == t
    ensures forall kind: Kind, i: nat :: FailuresKept(c, d, kind, i)
  {
    assert d.Tasks(r.kind) == c.Put(r.kind, r.id, t).Tasks(r.kind);
    forall kind: Kind, i: nat ensures FailuresKept(c, d, kind, i) {
      assert d.Tasks(kind) == c.Put(r.kind, r.id, t).Tasks(kind);
    }
  }

  lemma ReportForgetsNothing(c: Coord, cfg: Config, r: Report, now: int)
    ensures var d := ReportTask(c, cfg, r, now).0;
            && (forall kind: Kind, i: nat :: FailuresKept(c, d, kind, i))
            && (d.jobErr && !c.jobErr ==> cfg.maxAttempts > 0 && Failing(d, cfg, r.kind, r.id))
  {
    hide AddCounters, AllDone;
    var seen, d := Touch(c, r.worker, now), ReportTask(c, cfg, r, now).0;
    assert forall kind: Kind :: seen.Tasks(kind) == c.Tasks(kind);
    if Counts(c, r) {
      var t := seen.Tasks(r.kind)[r.id];
      PutForgetsNothing(seen, d, r, if r.success then t.(state := Done) else FailTask(t, r.worker));
    }
    forall kind: Kind, i: nat ensures FailuresKept(c, d, kind, i) {
      assert FailuresKept(seen, d, kind, i) && seen.Tasks(kind) == c.Tasks(kind);
    }
  }
}
