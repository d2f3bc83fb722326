/** The coordinator as the object the workers call; every method refines a function of `CoordinatorSpec`. */
module Coordinator {
  import opened Base
  import opened CoordinatorSpec
  import opened Counters

  lemma {:induction false} ReclaimedAppend(tasks: seq<Task>, t: Task, workers: map<WorkerId, Worker>, cfg: Config,
                                           now: int)
    ensures Reclaimed(tasks + [t], workers, cfg, now) ==
            Reclaimed(tasks, workers, cfg, now) + if MustReclaim(t, workers, cfg, now) then 1 else 0
  {
    if tasks == [] {
      assert [t][1..] == [] && [] + [t] == [t];
    } else {
      assert (tasks + [t])[1..] == tasks[1..] + [t];
      ReclaimedAppend(tasks[1..], t, workers, cfg, now);
    }
  }

  // ----- visiting a map's keys in any order -----

  /** The worker table after the workers in `seen` have been looked at. */
  function BuryIn(workers: map<WorkerId, Worker>, seen: set<WorkerId>, cfg: Config, now: int): map<WorkerId, Worker> {
    map w <- workers ::
      if w in seen && Silent(workers[w], cfg, now) then workers[w].(alive := false) else workers[w]
  }

  function SilentIn(workers: map<WorkerId, Worker>, seen: set<WorkerId>, cfg: Config, now: int): set<WorkerId> {
    set w <- workers | w in seen && Silent(workers[w], cfg, now)
  }

  lemma BuryNone(workers: map<WorkerId, Worker>, cfg: Config, now: int)
    ensures BuryIn(workers, {}, cfg, now) == workers && SilentIn(workers, {}, cfg, now) == {}
  {
  }

  lemma BuryOne(workers: map<WorkerId, Worker>, seen: set<WorkerId>, id: WorkerId, cfg: Config, now: int)
    requires id in workers && id !in seen
    ensures var before, after := BuryIn(workers, seen, cfg, now), BuryIn(workers, seen + {id}, cfg, now);
            && before[id] == workers[id]
            && after == (if Silent(workers[id], cfg, now) then before[id := workers[id].(alive := false)] else before)
            && |SilentIn(workers, seen + {id}, cfg, now)| ==
               |SilentIn(workers, seen, cfg, now)| + if Silent(workers[id], cfg, now) then 1 else 0
  {
    assert SilentIn(workers, seen + {id}, cfg, now) ==
           SilentIn(workers, seen, cfg, now) + if Silent(workers[id], cfg, now) then {id} else {};
  }

  lemma BuryAll(workers: map<WorkerId, Worker>, seen: set<WorkerId>, cfg: Config, now: int)
    requires seen == workers.Keys
    ensures BuryIn(workers, seen, cfg, now) == BuryWorkers(workers, cfg, now)
    ensures SilentIn(workers, seen, cfg, now) == SilentWorkers(workers, cfg, now)
  {
  }

  predicate Alive(workers: map<WorkerId, Worker>, w: WorkerId) {
    w in workers && workers[w].alive
  }

  /** The attempts left after those of the workers in `seen` have been looked at. */
  function Surviving(attempts: map<WorkerId, nat>, workers: map<WorkerId, Worker>,
                     seen: set<WorkerId>): map<WorkerId, nat> {
    map w <- attempts | w !in seen || Alive(workers, w) :: attempts[w]
  }

  function SurvivorsIn(attempts: map<WorkerId, nat>, workers: map<WorkerId, Worker>,
                       seen: set<WorkerId>): set<WorkerId> {
    set w <- attempts | w in seen && Alive(workers, w)
  }

  lemma DropOne(attempts: map<WorkerId, nat>, workers: map<WorkerId, Worker>, seen: set<WorkerId>, id: WorkerId)
    requires id in attempts && id !in seen
    ensures var before, after := Surviving(attempts, workers, seen), Surviving(attempts, workers, seen + {id});
            && after == (if Alive(workers, id) then before else before - {id})
            && |SurvivorsIn(attempts, workers, seen + {id})| ==
               |SurvivorsIn(attempts, workers, seen)| + if Alive(workers, id) then 1 else 0
  {
    assert SurvivorsIn(attempts, workers, seen + {id}) ==
           SurvivorsIn(attempts, workers, seen) + if Alive(workers, id) then {id} else {};
  }

  lemma DropAll(t: Task, workers: map<WorkerId, Worker>, seen: set<WorkerId>)
    requires seen == t.workers.Keys
    ensures Surviving(t.workers, workers, seen) == LiveAttempts(t, workers)
    ensures SurvivorsIn(t.workers, workers, seen) == LiveAttempts(t, workers).Keys
  {
  }

  class JobCoordinator {
    const cfg: Config
    var maps: seq<Task>
    var reduces: seq<Task>
    var workers: map<WorkerId, Worker>
    var nextId: nat
    const counters: Tally
    var phase: Phase
    var jobErr: bool
    var closed: bool
    var durations: seq<int>
    var lostWorkers: nat
    var reassignments: nat
    var backupsLaunched: nat

    ghost function View(): Coord
      reads this, counters
    {
      Coord(maps, reduces, workers, nextId, counters.values, phase, jobErr, closed, durations,
            lostWorkers, reassignments, backupsLaunched)
    }

    constructor (cfg: Config, numMaps: nat, numReduces: nat)
      ensures View() == New(numMaps, numReduces) && this.cfg == cfg && fresh(counters)
    {
      this.cfg := cfg;
      maps, reduces := seq(numMaps, _ => FRESH), seq(numReduces, _ => FRESH);
      workers, nextId, durations := map[], 0, [];
      phase, jobErr, closed := MapPhase, false, false;
      lostWorkers, reassignments, backupsLaunched := 0, 0, 0;
      counters := new Tally();
    }

    method Register(now: int) returns (id: WorkerId)
      modifies this
      ensures (View(), id) == CoordinatorSpec.Register(old(View()), now)
    {
      nextId := nextId + 1;
      id := nextId;
      workers := workers[id := Worker(now, true, false)];
    }

    method Heartbeat(w: WorkerId, now: int) returns (known: bool)
      modifies this
      ensures View() == Touch(old(View()), w, now) && (known <==> w in old(workers))
    {
      known := w in workers;
      if known {
        workers := workers[w := workers[w].(lastSeen := now, alive := true)];
      }
    }

    // ----- reclaiming -----

    /** Presumes silent workers lost. */
    method BuryLocked(now: int)
      modifies `workers, `lostWorkers
      ensures workers == BuryWorkers(old(workers), cfg, now)
      ensures lostWorkers == old(lostWorkers) + |SilentWorkers(old(workers), cfg, now)|
    {
      var left := workers.Keys;
      ghost var before, seen: set<WorkerId> := workers, {};
      BuryNone(before, cfg, now);
      while left != {}
        invariant left + seen == before.Keys && left !! seen
        invariant workers == BuryIn(before, seen, cfg, now)
        invariant lostWorkers == old(lostWorkers) + |SilentIn(before, seen, cfg, now)|
      {
        var id: WorkerId :| id in left;
        var w := workers[id];
        BuryOne(before, seen, id, cfg, now);
        if w.alive && now - w.lastSeen > cfg.workerTimeout {
          workers := workers[id := w.(alive := false)];
          lostWorkers := lostWorkers + 1;
        }
        left, seen := left - {id}, seen + {id};
      }
      BuryAll(before, seen, cfg, now);
    }

    /** Drops the attempts of workers presumed lost and counts the others. */
    method DropDeadAttempts(t: Task) returns (live: nat, left: map<WorkerId, nat>)
      ensures left == LiveAttempts(t, workers) && live == |left|
    {
      var pending := t.workers.Keys;
      ghost var seen: set<WorkerId> := {};
      left, live := t.workers, 0;
      while pending != {}
        invariant pending + seen == t.workers.Keys && pending !! seen
        invariant left == Surviving(t.workers, workers, seen) && live == |SurvivorsIn(t.workers, workers, seen)|
      {
        var id: WorkerId :| id in pending;
        DropOne(t.workers, workers, seen, id);
        if id in workers && workers[id].alive {
          live := live + 1;
        } else {
          left := left - {id};
        }
        pending, seen := pending - {id}, seen + {id};
      }
      DropAll(t, workers, seen);
    }

    method ReclaimTaskLocked(t: Task, now: int) returns (u: Task)
      modifies `reassignments
      ensures u == ReclaimTask(t, workers, cfg, now)
      ensures reassignments == old(reassignments) + if MustReclaim(t, workers, cfg, now) then 1 else 0
    {
      if !t.state.Running? {
        return t;
      }
      var live, left := DropDeadAttempts(t);
      u := t.(workers := left);
      var timedOut := now - t.started > cfg.taskTimeout;
      if live == 0 || timedOut {
        u := u.(state := Idle, backup := false, workers := map[]);
        reassignments := reassignments + 1;
      }
    }

    method ReclaimListLocked(list: seq<Task>, now: int) returns (out: seq<Task>)
      modifies `reassignments
      ensures out == ReclaimTasks(list, workers, cfg, now)
      ensures reassignments == old(reassignments) + Reclaimed(list, workers, cfg, now)
    {
      out := [];
      for i := 0 to |list|
        invariant out == ReclaimTasks(list[..i], workers, cfg, now)
        invariant reassignments == old(reassignments) + Reclaimed(list[..i], workers, cfg, now)
      {
        ReclaimedAppend(list[..i], list[i], workers, cfg, now);
        assert list[..i + 1] == list[..i] + [list[i]];
        var t := ReclaimTaskLocked(list[i], now);
        out := out + [t];
      }
      assert list[..|list|] == list;
    }

    method ReclaimLocked(now: int)
      modifies this
      ensures View() == Reclaim(old(View()), cfg, now)
    {
      BuryLocked(now);
      maps := ReclaimListLocked(maps, now);
      reduces := ReclaimListLocked(reduces, now);
    }

    // ----- choosing and assigning -----

    function List(kind: Kind): seq<Task>
      reads this
    {
      if kind.MapKind? then maps else reduces
    }

    method Store(kind: Kind, i: nat, t: Task)
      requires i < |List(kind)|
      modifies `maps, `reduces
      ensures View() == old(View()).Put(kind, i, t)
    {
      if kind.MapKind? {
        maps := maps[i := t];
      } else {
        reduces := reduces[i := t];
      }
    }

    method MedianDurationLocked() returns (m: int)
      ensures m == Median(durations)
    {
      if |durations| < 2 {
        return 0;
      }
      var sorted := Sorted(durations);
      return sorted[|sorted| / 2];
    }

    method LongestStragglerLocked(list: seq<Task>, w: WorkerId, now: int, limit: int) returns (candidate: Option<nat>)
      ensures candidate == LongestStraggler(list, w, now, limit)
    {
      candidate := None;
      var longest := 0;
      for i := 0 to |list|
        invariant candidate == LongestStraggler(list[..i], w, now, limit)
        invariant longest == if candidate.Some? then now - list[candidate.value].started else 0
      {
        var t := list[i];
        assert list[..i + 1][..i] == list[..i];
        if t.state.Running? && !t.backup && w !in t.workers {
          var elapsed := now - t.started;
          if elapsed > limit && elapsed > longest {
            candidate, longest := Some(i), elapsed;
          }
        }
      }
      assert list[..|list|] == list;
    }

    method PickBackupLocked(kind: Kind, w: WorkerId, now: int) returns (pick: Option<nat>)
      requires cfg.Valid() && cfg.enableBackups
      modifies `maps, `reduces, `backupsLaunched
      ensures pick == BackupChoice(old(View()), cfg, kind, w, now)
      ensures pick.None? ==> View() == old(View())
      ensures pick.Some? ==>
                View() == old(View()).Put(kind, pick.value, old(View()).Tasks(kind)[pick.value].(backup := true))
                          .(backupsLaunched := old(backupsLaunched) + 1)
    {
      var threshold := MedianDurationLocked();
      if threshold <= 0 {
        return None;
      }
      pick := LongestStragglerLocked(List(kind), w, now, threshold * cfg.thresholdNum / cfg.thresholdDen);
      if pick.Some? {
        Store(kind, pick.value, List(kind)[pick.value].(backup := true));
        backupsLaunched := backupsLaunched + 1;
      }
    }

    method PickLocked(kind: Kind, w: WorkerId, now: int) returns (pick: Option<nat>)
      requires cfg.Valid()
      modifies `maps, `reduces, `backupsLaunched
      ensures var before := old(View());
              if FirstIdle(before.Tasks(kind)).Some? then pick == FirstIdle(before.Tasks(kind)) && View() == before
              else
                && pick == BackupChoice(before, cfg, kind, w, now)
                && (pick.None? ==> View() == before)
                && (pick.Some? ==>
                      var marked := before.Tasks(kind)[pick.value].(backup := true);
                      View() == before.Put(kind, pick.value, marked)
                                               .(backupsLaunched := before.backupsLaunched + 1))
    {
      var list := List(kind);
      for i := 0 to |list|
        invariant FirstIdle(list) == NextIdle(list, i)
      {
        if list[i].state.Idle? {
          return Some(i);
        }
      }
      if !cfg.enableBackups {
        return None;
      }
      pick := PickBackupLocked(kind, w, now);
    }

    method AssignLocked(kind: Kind, i: nat, w: WorkerId, now: int) returns (reply: Reply)
      requires i < |List(kind)|
      modifies `maps, `reduces
      ensures var t := StartAttempt(old(View()).Tasks(kind)[i], w, now);
              View() == old(View()).Put(kind, i, t) && reply == Assigned(kind, i, t.attempt)
    {
      var t := List(kind)[i];
      if !t.state.Running? {
        t := t.(started := now);
      }
      t := t.(state := Running, attempt := t.attempt + 1);
      t := t.(workers := t.workers[w := t.attempt]);
      Store(kind, i, t);
      reply := Assigned(kind, i, t.attempt);
    }

    /** Picks a task of one kind and assigns it. */
    method OfferLocked(kind: Kind, w: WorkerId, now: int) returns (reply: Option<Reply>)
      requires cfg.Valid()
      modifies `maps, `reduces, `backupsLaunched
      ensures match TryAssign(old(View()), cfg, kind, w, now)
              case None => reply.None? && View() == old(View())
              case Some(r) => reply == Some(r.1) && View() == r.0
    {
      ghost var before := View();
      var pick := PickLocked(kind, w, now);
      if pick.None? {
        return None;
      }
      ghost var picked := View();
      Offered(before, cfg, kind, w, now, pick.value, picked);
      hide TryAssign, FirstIdle, BackupChoice, StartAttempt;
      var r := AssignLocked(kind, pick.value, w, now);
      return Some(r);
    }

    method AllDoneLocked(list: seq<Task>) returns (all: bool)
      ensures all == AllDone(list)
    {
      for i := 0 to |list|
        invariant forall j | 0 <= j < i :: list[j].state.Done?
      {
        if !list[i].state.Done? {
          assert list[i] in list;
          return false;
        }
      }
      return true;
    }

    method FinishLocked()
      modifies `closed, `phase
      ensures View() == Finish(old(View()))
    {
      if !closed {
        closed, phase := true, DonePhase;
      }
    }

    method FailLocked()
      modifies `closed, `phase, `jobErr
      ensures View() == Fail(old(View()))
    {
      if !closed {
        closed, phase, jobErr := true, FailedPhase, true;
      }
    }

    method Dismiss(w: WorkerId)
      modifies `workers
      ensures View() == MarkExited(old(View()), w)
    {
      if w in workers {
        workers := workers[w := workers[w].(exited := true)];
      }
    }

    // ----- the calls -----

    method RequestTask(w: WorkerId, now: int) returns (reply: Reply)
      requires cfg.Valid()
      modifies this
      ensures (View(), reply) == Request(old(View()), cfg, w, now)
    {
      var _ := Heartbeat(w, now);
      if jobErr {
        Dismiss(w);
        return Exit;
      }
      ReclaimLocked(now);
      var offer := OfferLocked(MapKind, w, now);
      if offer.Some? {
        return offer.value;
      }
      var mapsDone := AllDoneLocked(maps);
      if !mapsDone {
        return Wait;
      }
      reply := RequestReduceLocked(w, now);
    }

    method RequestReduceLocked(w: WorkerId, now: int) returns (reply: Reply)
      requires cfg.Valid()
      modifies this
      ensures (View(), reply) == HandOutReduce(EnterReduce(old(View())), cfg, w, now)
    {
      if phase.MapPhase? {
        phase, durations := ReducePhase, [];
      }
      var offer := OfferLocked(ReduceKind, w, now);
      if offer.Some? {
        return offer.value;
      }
      var reducesDone := AllDoneLocked(reduces);
      if !reducesDone {
        return Wait;
      }
      FinishLocked();
      Dismiss(w);
      return Exit;
    }

    method ReportTask(r: Report, now: int) returns (accepted: bool)
      modifies this, counters
      ensures (View(), accepted) == CoordinatorSpec.ReportTask(old(View()), cfg, r, now)
    {
      var _ := Heartbeat(r.worker, now);
      if r.id < 0 || r.id >= |List(r.kind)| {
        return false;
      }
      var t := List(r.kind)[r.id];
      if t.state.Done? {
        return false;
      }
      if !r.success {
        FailTaskLocked(r, t);
        return false;
      }
      Store(r.kind, r.id, t.(state := Done));
      durations := durations + [r.elapsed];
      counters.Merge(r.counters);
      var mapsDone := AllDoneLocked(maps);
      var reducesDone := AllDoneLocked(reduces);
      if mapsDone && reducesDone {
        FinishLocked();
      }
      return true;
    }

    method FailTaskLocked(r: Report, t: Task)
      requires 0 <= r.id < |List(r.kind)| && t == List(r.kind)[r.id]
      modifies this
      ensures View() == Failed(old(View()), cfg, r)
    {
      var failed := t.(failures := t.failures + 1, state := Idle, workers := t.workers - {r.worker});
      Store(r.kind, r.id, failed);
      if cfg.maxAttempts > 0 && failed.failures >= cfg.maxAttempts {
        FailLocked();
      }
    }
  }

  /** The first idle task when the tasks before `i` are not idle. */
  function NextIdle(tasks: seq<Task>, i: nat): Option<nat>
    requires i <= |tasks|
  {
    match FirstIdle(tasks[i..])
    case None => None
    case Some(j) => Some(i + j)
  }

  /** Assigning the task that was picked is what offering one comes to. */
  lemma Offered(c: Coord, cfg: Config, kind: Kind, w: WorkerId, now: int, i: nat, picked: Coord)
    requires cfg.Valid()
    requires if FirstIdle(c.Tasks(kind)).Some? then FirstIdle(c.Tasks(kind)) == Some(i) && picked == c
             else BackupChoice(c, cfg, kind, w, now) == Some(i) && i < |c.Tasks(kind)|
                  && picked == c.Put(kind, i, c.Tasks(kind)[i].(backup := true))
                                .(backupsLaunched := c.backupsLaunched + 1)
    ensures i < |picked.Tasks(kind)|
    ensures var t := StartAttempt(picked.Tasks(kind)[i], w, now);
            TryAssign(c, cfg, kind, w, now) == Some((picked.Put(kind, i, t), Assigned(kind, i, t.attempt)))
  {
    hide StartAttempt;
    var t := StartAttempt(picked.Tasks(kind)[i], w, now);
    PutTwice(c, kind, i, picked.Tasks(kind)[i], t);
  }

  lemma PutTwice(c: Coord, kind: Kind, i: nat, a: Task, b: Task)
    requires i < |c.Tasks(kind)|
    ensures c.Put(kind, i, a).Put(kind, i, b) == c.Put(kind, i, b)
  {
    assert c.Tasks(kind)[i := a][i := b] == c.Tasks(kind)[i := b];
  }
}
