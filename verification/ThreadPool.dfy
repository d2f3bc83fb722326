/**
 * `runAll` on a shared pool: any number of callers, each with its own group of tasks, workers that take queued
 * tasks in order, and callers that call again from inside the task they run themselves.
 *
 * The machine covers the calls that go through the queue: at least two tasks, a pool with workers, and a caller
 * that is not one of them. The other calls run their tasks inline.
 */
module ThreadPool {
  import opened Base

  /** A queued task: which group it belongs to and which of the group's tasks it is. */
  datatype Entry = Entry(group: nat, task: nat)

  /** A worker runs a task and then counts it off its group. */
  datatype Worker = Resting | Running(entry: Entry) | Counting(entry: Entry)

  /**
   * A group lives on its caller's stack until the call returns. `ran` and `threw` record, task by task, how
   * often it ran and whether it threw.
   */
  datatype Group = Group(
    remaining: int,
    error: bool,
    ownDone: bool,
    callerError: bool,
    returned: bool,
    parent: Option<nat>,
    ran: seq<nat>,
    threw: seq<bool>)

  datatype Pool = Pool(queue: seq<Entry>, workers: seq<Worker>, groups: seq<Group>)

  datatype Action =
    | Call(tasks: nat, parent: Option<nat>)
    | Take(worker: nat)
    | Run(worker: nat, fails: bool)
    | CountOff(worker: nat)
    | RunOwn(group: nat, fails: bool)
    | Return(group: nat)

  // ----- the steps -----

  function Queued(group: nat, tasks: nat): (q: seq<Entry>)
    requires tasks > 0
    ensures |q| == tasks - 1
  {
    seq(tasks - 1, i requires 0 <= i < tasks - 1 => Entry(group, i + 1))
  }

  /** A caller's own task is running: its group is there and the task has not finished. */
  predicate Open(p: Pool, g: nat) {
    g < |p.groups| && !p.groups[g].ownDone
  }

  function RanOnce(g: Group, t: nat, fails: bool): Group
    requires t < |g.ran| == |g.threw|
  {
    g.(ran := g.ran[t := g.ran[t] + 1], threw := g.threw[t := fails])
  }

  predicate Enabled(p: Pool, a: Action) {
    match a
    case Call(n, parent) => n >= 2 && |p.workers| > 0 && (parent.Some? ==> Open(p, parent.value))
    case Take(w) => w < |p.workers| && p.workers[w].Resting? && p.queue != []
    case Run(w, _) => w < |p.workers| && p.workers[w].Running?
    case CountOff(w) => w < |p.workers| && p.workers[w].Counting?
    case RunOwn(g, _) => Open(p, g) && forall h <- p.groups :: h.parent == Some(g) ==> h.returned
    case Return(g) => g < |p.groups| && p.groups[g].ownDone && !p.groups[g].returned && p.groups[g].remaining == 0
  }

  predicate WellTyped(p: Pool) {
    && (forall e <- p.queue :: Belongs(p, e))
    && (forall w <- p.workers :: w.Resting? || Belongs(p, w.entry))
    && forall g <- p.groups :: |g.ran| == |g.threw| >= 2
  }

  /** The entry is one of the queued tasks of a group that exists. */
  predicate Belongs(p: Pool, e: Entry) {
    e.group < |p.groups| && 1 <= e.task < |p.groups[e.group].ran|
  }

  function Step(p: Pool, a: Action): Pool
    requires WellTyped(p) && Enabled(p, a)
  {
    match a
    case Call(n, parent) =>
      var g := Group(n - 1, false, false, false, false, parent, seq(n, _ => 0), seq(n, _ => false));
      p.(groups := p.groups + [g], queue := p.queue + Queued(|p.groups|, n))
    case Take(w) => p.(queue := p.queue[1..], workers := p.workers[w := Running(p.queue[0])])
    case Run(w, fails) =>
      var e := p.workers[w].entry;
      assert p.workers[w] in p.workers;
      var g := RanOnce(p.groups[e.group], e.task, fails);
      p.(workers := p.workers[w := Counting(e)], groups := p.groups[e.group := g.(error := g.error || fails)])
    case CountOff(w) =>
      var e := p.workers[w].entry;
      assert p.workers[w] in p.workers;
      var g := p.groups[e.group];
      p.(workers := p.workers[w := Resting], groups := p.groups[e.group := g.(remaining := g.remaining - 1)])
    case RunOwn(i, fails) =>
      p.(groups := p.groups[i := RanOnce(p.groups[i], 0, fails).(ownDone := true, callerError := fails)])
    case Return(i) => p.(groups := p.groups[i := p.groups[i].(returned := true)])
  }

  // ----- counting -----

  function InQueue(e: Entry): Entry -> int {
    (x: Entry) => if x == e then 1 else 0
  }

  /** The worker holds the task, before or after running it. */
  function InHand(e: Entry): Worker -> int {
    (w: Worker) => if !w.Resting? && w.entry == e then 1 else 0
  }

  function JustRan(e: Entry): Worker -> int {
    (w: Worker) => if w.Counting? && w.entry == e then 1 else 0
  }

  function OfGroup(g: nat): Entry -> int {
    (x: Entry) => if x.group == g then 1 else 0
  }

  function HeldOf(g: nat): Worker -> int {
    (w: Worker) => if !w.Resting? && w.entry.group == g then 1 else 0
  }

  /** How many of a group's tasks are queued or in some worker's hands. */
  function Outstanding(p: Pool, g: nat): int {
    Sum(p.queue, OfGroup(g)) + Sum(p.workers, HeldOf(g))
  }

  /** How many times one task is queued or in some worker's hands. */
  function Copies(p: Pool, e: Entry): int {
    Sum(p.queue, InQueue(e)) + Sum(p.workers, InHand(e))
  }

  /**
   * A task is queued or in hand at most once; it has run once if it is neither or if its worker is counting it
   * off, and not at all otherwise.
   */
  predicate TaskRight(p: Pool, e: Entry)
    requires Belongs(p, e) && |p.groups[e.group].threw| == |p.groups[e.group].ran|
  {
    && 0 <= Copies(p, e) <= 1
    && p.groups[e.group].ran[e.task] == 1 - Copies(p, e) + Sum(p.workers, JustRan(e))
    && (p.groups[e.group].ran[e.task] == 0 ==> !p.groups[e.group].threw[e.task])
  }

  predicate GroupRight(p: Pool, i: nat)
    requires i < |p.groups|
  {
    var g := p.groups[i];
    && |g.ran| == |g.threw| >= 2
    && g.remaining == Outstanding(p, i)
    && g.ran[0] == (if g.ownDone then 1 else 0)
    && (g.ownDone ==> g.callerError == g.threw[0]) && (!g.ownDone ==> !g.threw[0])
    && (g.error <==> exists t :: 1 <= t < |g.threw| && g.threw[t])
    && (g.returned ==> g.ownDone && g.remaining == 0)
    && (g.parent.Some? ==> g.parent.value < i && (p.groups[g.parent.value].ownDone ==> g.returned))
  }

  predicate Right(p: Pool) {
    && WellTyped(p)
    && (forall i | 0 <= i < |p.groups| :: GroupRight(p, i))
    && forall i, t | 0 <= i < |p.groups| && 1 <= t < |p.groups[i].ran| :: TaskRight(p, Entry(i, t))
  }

  // ----- sums -----

  lemma {:induction false} SumZero<T>(s: seq<T>, f: T -> int)
    requires forall x <- s :: f(x) == 0
    ensures Sum(s, f) == 0
  {
    if s != [] {
      SumZero(s[1..], f);
    }
  }

  lemma {:induction false} SumHolds<T>(s: seq<T>, f: T -> int, i: nat)
    requires i < |s| && forall x <- s :: f(x) >= 0
    ensures Sum(s, f) >= f(s[i])
  {
    if i == 0 {
      SumNotNegative(s[1..], f);
    } else {
      SumHolds(s[1..], f, i - 1);
    }
  }

  lemma {:induction false} SumNotNegative<T>(s: seq<T>, f: T -> int)
    requires forall x <- s :: f(x) >= 0
    ensures Sum(s, f) >= 0
  {
    if s != [] {
      SumNotNegative(s[1..], f);
    }
  }

  function NotYetRan(e: Entry): Worker -> int {
    (w: Worker) => if w.Running? && w.entry == e then 1 else 0
  }

  lemma {:induction false} HandsSplit(workers: seq<Worker>, e: Entry)
    ensures Sum(workers, InHand(e)) == Sum(workers, JustRan(e)) + Sum(workers, NotYetRan(e))
  {
    if workers != [] {
      HandsSplit(workers[1..], e);
    }
  }

  lemma {:induction false} QueuedSums(g: nat, tasks: nat, e: Entry)
    requires tasks > 0
    ensures Sum(Queued(g, tasks), OfGroup(e.group)) == if e.group == g then tasks - 1 else 0
    ensures Sum(Queued(g, tasks), InQueue(e)) == if e.group == g && 1 <= e.task < tasks then 1 else 0
  {
    if tasks > 1 {
      var q := Queued(g, tasks - 1);
      assert Queued(g, tasks) == q + [Entry(g, tasks - 1)];
      QueuedSums(g, tasks - 1, e);
      SumAppend(q, [Entry(g, tasks - 1)], OfGroup(e.group));
      SumAppend(q, [Entry(g, tasks - 1)], InQueue(e));
      SumOne(Entry(g, tasks - 1), OfGroup(e.group));
      SumOne(Entry(g, tasks - 1), InQueue(e));
    }
  }

  lemma SumOne<T>(x: T, f: T -> int)
    ensures Sum([x], f) == f(x)
  {
    assert [x][1..] == [];
  }

  // ----- every step keeps the pool right -----

  lemma CallTyped(p: Pool, n: nat, parent: Option<nat>)
    requires Right(p) && Enabled(p, Call(n, parent))
    ensures WellTyped(Step(p, Call(n, parent)))
  {
    var q := Step(p, Call(n, parent));
    forall e | e in q.queue ensures Belongs(q, e) {
      if e in p.queue {
        assert Belongs(p, e);
      }
    }
    forall w | w in q.workers ensures w.Resting? || Belongs(q, w.entry) {
      assert w in p.workers;
    }
  }

  /** A new group's tasks are queued once each; the other groups' counts are as before. */
  lemma CallSums(p: Pool, n: nat, parent: Option<nat>, e: Entry)
    requires Right(p) && Enabled(p, Call(n, parent))
    ensures var q := Step(p, Call(n, parent));
            && Outstanding(q, e.group) == Outstanding(p, e.group) + (if e.group == |p.groups| then n - 1 else 0)
            && Copies(q, e) == Copies(p, e) + (if e.group == |p.groups| && 1 <= e.task < n then 1 else 0)
            && (e.group >= |p.groups| ==>
                  Outstanding(p, e.group) == 0 && Copies(p, e) == 0 && Sum(p.workers, JustRan(e)) == 0)
  {
    SumAppend(p.queue, Queued(|p.groups|, n), OfGroup(e.group));
    SumAppend(p.queue, Queued(|p.groups|, n), InQueue(e));
    QueuedSums(|p.groups|, n, e);
    if e.group >= |p.groups| {
      SumZero(p.queue, OfGroup(e.group));
      SumZero(p.queue, InQueue(e));
      SumZero(p.workers, HeldOf(e.group));
      SumZero(p.workers, InHand(e));
      SumZero(p.workers, JustRan(e));
    }
  }

  lemma CallRight(p: Pool, n: nat, parent: Option<nat>)
    requires Right(p) && Enabled(p, Call(n, parent))
    ensures Right(Step(p, Call(n, parent)))
  {
    var q := Step(p, Call(n, parent));
    CallTyped(p, n, parent);
    forall i | 0 <= i < |q.groups| ensures GroupRight(q, i) {
      hide Outstanding;
      CallSums(p, n, parent, Entry(i, 1));
      assert i < |p.groups| ==> GroupRight(p, i);
    }
    forall i, t | 0 <= i < |q.groups| && 1 <= t < |q.groups[i].ran| ensures TaskRight(q, Entry(i, t)) {
      hide Copies;
      CallSums(p, n, parent, Entry(i, t));
      assert i < |p.groups| ==> TaskRight(p, Entry(i, t));
    }
  }

  lemma TakeSums(p: Pool, w: nat, e: Entry)
    requires Right(p) && Enabled(p, Take(w))
    ensures var q := Step(p, Take(w));
            && Outstanding(q, e.group) == Outstanding(p, e.group) && Copies(q, e) == Copies(p, e)
            && Sum(q.workers, JustRan(e)) == Sum(p.workers, JustRan(e))
  {
    var x := Running(p.queue[0]);
    SumUpdate(p.workers, HeldOf(e.group), w, x);
    SumUpdate(p.workers, InHand(e), w, x);
    SumUpdate(p.workers, JustRan(e), w, x);
  }

  lemma TakeTyped(p: Pool, w: nat)
    requires WellTyped(p) && Enabled(p, Take(w))
    ensures WellTyped(Step(p, Take(w)))
  {
    var q := Step(p, Take(w));
    assert p.queue[0] in p.queue && forall e <- q.queue :: e in p.queue;
    assert forall x <- q.workers :: x == Running(p.queue[0]) || x in p.workers;
  }

  lemma TakeRight(p: Pool, w: nat)
    requires Right(p) && Enabled(p, Take(w))
    ensures Right(Step(p, Take(w)))
  {
    var q := Step(p, Take(w));
    TakeTyped(p, w);
    forall i | 0 <= i < |q.groups| ensures GroupRight(q, i) {
      hide Outstanding;
      TakeSums(p, w, Entry(i, 1));
      assert GroupRight(p, i);
    }
    forall i, t | 0 <= i < |q.groups| && 1 <= t < |q.groups[i].ran| ensures TaskRight(q, Entry(i, t)) {
      hide Copies;
      TakeSums(p, w, Entry(i, t));
      assert TaskRight(p, Entry(i, t));
    }
  }

  lemma RunSums(p: Pool, w: nat, fails: bool, e: Entry)
    requires Right(p) && Enabled(p, Run(w, fails))
    ensures var q := Step(p, Run(w, fails));
            && Outstanding(q, e.group) == Outstanding(p, e.group) && Copies(q, e) == Copies(p, e)
            && Sum(q.workers, JustRan(e)) == Sum(p.workers, JustRan(e)) + (if e == p.workers[w].entry then 1 else 0)
  {
    var x := Counting(p.workers[w].entry);
    SumUpdate(p.workers, HeldOf(e.group), w, x);
    SumUpdate(p.workers, InHand(e), w, x);
    SumUpdate(p.workers, JustRan(e), w, x);
  }

  /** A task about to run has not run before. */
  lemma FirstRun(p: Pool, w: nat)
    requires Right(p) && w < |p.workers| && p.workers[w].Running?
    ensures var e := p.workers[w].entry; Belongs(p, e) && p.groups[e.group].ran[e.task] == 0
  {
    var e := p.workers[w].entry;
    assert p.workers[w] in p.workers && Belongs(p, e);
    assert TaskRight(p, Entry(e.group, e.task));
    HandsSplit(p.workers, e);
    SumHolds(p.workers, NotYetRan(e), w);
    SumNotNegative(p.workers, JustRan(e));
    SumNotNegative(p.queue, InQueue(e));
  }

  lemma RunGroups(p: Pool, w: nat, fails: bool)
    requires Right(p) && Enabled(p, Run(w, fails))
    ensures var q := Step(p, Run(w, fails)); WellTyped(q) && forall i | 0 <= i < |q.groups| :: GroupRight(q, i)
  {
    var q := Step(p, Run(w, fails));
    FirstRun(p, w);
    assert WellTyped(q);
    forall i | 0 <= i < |q.groups| ensures GroupRight(q, i) {
      hide GroupRight, Right, Step;
      RunGroup(p, w, fails, i);
    }
  }

  lemma RunGroup(p: Pool, w: nat, fails: bool, i: nat)
    requires Right(p) && Enabled(p, Run(w, fails)) && i < |p.groups|
    ensures var q := Step(p, Run(w, fails)); |q.groups| == |p.groups| && GroupRight(q, i)
  {
    hide Outstanding;
    var e := p.workers[w].entry;
    FirstRun(p, w);
    RunSums(p, w, fails, Entry(i, 1));
    assert GroupRight(p, i);
    if i == e.group {
      assert TaskRight(p, Entry(e.group, e.task));
      Threw(p.groups[i].threw, e.task, fails);
    }
  }

  lemma Threw(threw: seq<bool>, t: nat, fails: bool)
    requires 1 <= t < |threw| && !threw[t]
    ensures var after := threw[t := fails];
            (exists k :: 1 <= k < |after| && after[k]) <==> (fails || exists k :: 1 <= k < |threw| && threw[k])
  {
    var after := threw[t := fails];
    if fails {
      assert after[t];
    } else {
      assert after == threw;
    }
  }

  lemma RunRight(p: Pool, w: nat, fails: bool)
    requires Right(p) && Enabled(p, Run(w, fails))
    ensures Right(Step(p, Run(w, fails)))
  {
    var q := Step(p, Run(w, fails));
    RunGroups(p, w, fails);
    FirstRun(p, w);
    forall i, t | 0 <= i < |q.groups| && 1 <= t < |q.groups[i].ran| ensures TaskRight(q, Entry(i, t)) {
      hide Copies, GroupRight;
      RunSums(p, w, fails, Entry(i, t));
      assert TaskRight(p, Entry(i, t));
    }
  }

  lemma CountOffSums(p: Pool, w: nat, e: Entry)
    requires Right(p) && Enabled(p, CountOff(w))
    ensures var q, x := Step(p, CountOff(w)), p.workers[w].entry;
            && Outstanding(q, e.group) == Outstanding(p, e.group) - (if e.group == x.group then 1 else 0)
            && Copies(q, e) == Copies(p, e) - (if e == x then 1 else 0)
            && Sum(q.workers, JustRan(e)) == Sum(p.workers, JustRan(e)) - (if e == x then 1 else 0)
            && (e == x ==> Copies(p, e) >= 1)
  {
    SumUpdate(p.workers, HeldOf(e.group), w, Resting);
    SumUpdate(p.workers, InHand(e), w, Resting);
    SumUpdate(p.workers, JustRan(e), w, Resting);
    SumHolds(p.workers, InHand(e), w);
    SumNotNegative(p.queue, InQueue(e));
  }

  lemma CountOffRight(p: Pool, w: nat)
    requires Right(p) && Enabled(p, CountOff(w))
    ensures Right(Step(p, CountOff(w)))
  {
    var q := Step(p, CountOff(w));
    assert p.workers[w] in p.workers;
    assert WellTyped(q);
    forall i | 0 <= i < |q.groups| ensures GroupRight(q, i) {
      hide Outstanding;
      CountOffSums(p, w, Entry(i, 1));
      assert GroupRight(p, i);
      Held(p, w);
    }
    forall i, t | 0 <= i < |q.groups| && 1 <= t < |q.groups[i].ran| ensures TaskRight(q, Entry(i, t)) {
      hide Copies, GroupRight;
      CountOffSums(p, w, Entry(i, t));
      assert TaskRight(p, Entry(i, t));
    }
  }

  /** A group some worker is busy for has not returned. */
  lemma Held(p: Pool, w: nat)
    requires Right(p) && w < |p.workers| && !p.workers[w].Resting?
    ensures var g := p.workers[w].entry.group; g < |p.groups| && p.groups[g].remaining >= 1 && !p.groups[g].returned
  {
    var g := p.workers[w].entry.group;
    assert p.workers[w] in p.workers && GroupRight(p, g);
    SumHolds(p.workers, HeldOf(g), w);
    SumNotNegative(p.queue, OfGroup(g));
  }

  lemma OwnTyped(p: Pool, i: nat, fails: bool)
    requires WellTyped(p) && Enabled(p, RunOwn(i, fails))
    ensures WellTyped(Step(p, RunOwn(i, fails)))
  {
  }

  lemma OwnRight(p: Pool, i: nat, fails: bool)
    requires Right(p) && Enabled(p, RunOwn(i, fails))
    ensures Right(Step(p, RunOwn(i, fails)))
  {
    var q := Step(p, RunOwn(i, fails));
    assert GroupRight(p, i);
    OwnTyped(p, i, fails);
    forall k | 0 <= k < |q.groups| ensures GroupRight(q, k) {
      assert GroupRight(p, k);
      assert p.groups[k] in p.groups;
      assert Outstanding(q, k) == Outstanding(p, k);
      if k == i {
        assert forall t | 1 <= t < |q.groups[k].threw| :: q.groups[k].threw[t] == p.groups[k].threw[t];
      }
    }
    forall k, t | 0 <= k < |q.groups| && 1 <= t < |q.groups[k].ran| ensures TaskRight(q, Entry(k, t)) {
      assert TaskRight(p, Entry(k, t));
      assert Copies(q, Entry(k, t)) == Copies(p, Entry(k, t));
    }
  }

  lemma ReturnRight(p: Pool, i: nat)
    requires Right(p) && Enabled(p, Return(i))
    ensures Right(Step(p, Return(i)))
  {
    var q := Step(p, Return(i));
    assert WellTyped(q);
    forall k | 0 <= k < |q.groups| ensures GroupRight(q, k) {
      assert GroupRight(p, k) && GroupRight(p, i);
      assert Outstanding(q, k) == Outstanding(p, k);
    }
    forall k, t | 0 <= k < |q.groups| && 1 <= t < |q.groups[k].ran| ensures TaskRight(q, Entry(k, t)) {
      assert TaskRight(p, Entry(k, t));
      assert Copies(q, Entry(k, t)) == Copies(p, Entry(k, t));
    }
  }

  lemma StepRight(p: Pool, a: Action)
    requires Right(p) && Enabled(p, a)
    ensures Right(Step(p, a))
  {
    hide Right, Enabled, Step;
    match a
    case Call(n, parent) => CallRight(p, n, parent);
    case Take(w) => TakeRight(p, w);
    case Run(w, fails) => RunRight(p, w, fails);
    case CountOff(w) => CountOffRight(p, w);
    case RunOwn(g, fails) => OwnRight(p, g, fails);
    case Return(g) => ReturnRight(p, g);
  }

  // ----- whole runs -----

  function Start(workers: nat): Pool {
    Pool([], seq(workers, _ => Resting), [])
  }

  /** A fresh pool after some actions; one that is not possible when it comes changes nothing. */
  function After(workers: nat, actions: seq<Action>): Pool {
    if actions == [] then Start(workers) else
    var n := |actions| - 1;
    var p := After(workers, actions[..n]);
    if WellTyped(p) && Enabled(p, actions[n]) then Step(p, actions[n]) else p
  }

  lemma {:induction false} ReachableRight(workers: nat, actions: seq<Action>)
    ensures var p := After(workers, actions); Right(p) && |p.workers| == workers && (p.groups != [] ==> workers > 0)
  {
    hide Right, WellTyped, Enabled, Step;
    if actions == [] {
      StartRight(workers);
    } else {
      var n := |actions| - 1;
      var p := After(workers, actions[..n]);
      ReachableRight(workers, actions[..n]);
      if WellTyped(p) && Enabled(p, actions[n]) {
        StepRight(p, actions[n]);
        StepWorkers(p, actions[n]);
      }
    }
  }

  lemma StartRight(workers: nat)
    ensures Right(Start(workers))
  {
  }

  lemma StepWorkers(p: Pool, a: Action)
    requires WellTyped(p) && Enabled(p, a)
    ensures |Step(p, a).workers| == |p.workers|
    ensures Step(p, a).groups != [] ==> p.groups != [] || |p.workers| > 0
  {
  }

  lemma TotalIsOutstanding(p: Pool, g: nat, t: nat)
    requires Right(p) && g < |p.groups| && 1 <= t < |p.groups[g].ran| && Outstanding(p, g) == 0
    ensures Copies(p, Entry(g, t)) == 0 && Sum(p.workers, JustRan(Entry(g, t))) == 0
  {
    var e := Entry(g, t);
    NothingOf(p, g);
    SumZero(p.queue, InQueue(e));
    SumZero(p.workers, InHand(e));
    SumZero(p.workers, JustRan(e));
  }

  /** No queued or running task belongs to a group with nothing outstanding. */
  lemma NothingOf(p: Pool, g: nat)
    requires Outstanding(p, g) == 0
    ensures forall e <- p.queue :: e.group != g
    ensures forall w <- p.workers :: w.Resting? || w.entry.group != g
  {
    SumNotNegative(p.queue, OfGroup(g));
    SumNotNegative(p.workers, HeldOf(g));
    forall i | 0 <= i < |p.queue| ensures p.queue[i].group != g {
      SumHolds(p.queue, OfGroup(g), i);
    }
    forall i | 0 <= i < |p.workers| ensures p.workers[i].Resting? || p.workers[i].entry.group != g {
      SumHolds(p.workers, HeldOf(g), i);
    }
  }

  lemma AllRan(p: Pool, g: nat, t: nat)
    requires Right(p) && g < |p.groups| && Outstanding(p, g) == 0 && p.groups[g].ownDone && t < |p.groups[g].ran|
    ensures p.groups[g].ran[t] == 1
  {
    assert GroupRight(p, g);
    if t > 0 {
      assert TaskRight(p, Entry(g, t));
      TotalIsOutstanding(p, g, t);
    }
  }

  /**
   * A call returns only after every task of its group ran exactly once; nothing in the pool refers to the group
   * any more, and the call throws exactly when some task did.
   */
  lemma ReturnMeansDone(workers: nat, actions: seq<Action>, g: nat)
    requires var p := After(workers, actions); Enabled(p, Return(g)) || (g < |p.groups| && p.groups[g].returned)
    ensures var p := After(workers, actions);
            && (forall t | 0 <= t < |p.groups[g].ran| :: p.groups[g].ran[t] == 1)
            && (forall e <- p.queue :: e.group != g) && (forall w <- p.workers :: w.Resting? || w.entry.group != g)
            && |p.groups[g].threw| == |p.groups[g].ran|
            && (p.groups[g].callerError || p.groups[g].error <==>
                  exists t :: 0 <= t < |p.groups[g].threw| && p.groups[g].threw[t])
  {
    var p := After(workers, actions);
    ReachableRight(workers, actions);
    hide After;
    assert GroupRight(p, g);
    NothingOf(p, g);
    forall t | 0 <= t < |p.groups[g].ran| ensures p.groups[g].ran[t] == 1 {
      hide Outstanding, Right;
      AllRan(p, g, t);
    }
    var threw := p.groups[g].threw;
    assert threw[0] || (exists t :: 1 <= t < |threw| && threw[t]) <==> exists t :: 0 <= t < |threw| && threw[t];
  }

  /** Until then the group's count is exactly its tasks still queued or in some worker's hands. */
  lemma RemainingIsOutstanding(workers: nat, actions: seq<Action>, g: nat)
    requires g < |After(workers, actions).groups|
    ensures After(workers, actions).groups[g].remaining == Outstanding(After(workers, actions), g)
  {
    ReachableRight(workers, actions);
    assert GroupRight(After(workers, actions), g);
  }

  lemma SomeOutstanding(p: Pool, g: nat)
    requires Outstanding(p, g) > 0
    ensures p.queue != [] || exists w :: 0 <= w < |p.workers| && !p.workers[w].Resting?
  {
    if p.queue == [] && forall w | 0 <= w < |p.workers| :: p.workers[w].Resting? {
      SumZero(p.workers, HeldOf(g));
    }
  }

  /** The last group that has not returned. */
  lemma LastOpen(p: Pool, g: nat) returns (h: nat)
    requires g < |p.groups| && !p.groups[g].returned
    ensures g <= h < |p.groups| && !p.groups[h].returned && forall i | h < i < |p.groups| :: p.groups[i].returned
    decreases |p.groups| - g
  {
    if i :| g < i < |p.groups| && !p.groups[i].returned {
      h := LastOpen(p, i);
    } else {
      h := g;
    }
  }

  /**
   * While any call has not returned some step other than a new call is possible: no worker ever waits for a
   * group, and the innermost caller can always finish its own task or return.
   */
  lemma NeverStuck(workers: nat, actions: seq<Action>, g: nat) returns (a: Action)
    requires var p := After(workers, actions); g < |p.groups| && !p.groups[g].returned
    ensures Enabled(After(workers, actions), a) && !a.Call?
  {
    var p := After(workers, actions);
    ReachableRight(workers, actions);
    if w :| 0 <= w < |p.workers| && !p.workers[w].Resting? {
      return if p.workers[w].Running? then Run(w, false) else CountOff(w);
    }
    if p.queue != [] {
      assert p.workers[0].Resting?;
      return Take(0);
    }
    var h := LastOpen(p, g);
    assert GroupRight(p, h);
    if p.groups[h].ownDone {
      if p.groups[h].remaining > 0 {
        SomeOutstanding(p, h);
      }
      SumNotNegative(p.queue, OfGroup(h));
      SumNotNegative(p.workers, HeldOf(h));
      return Return(h);
    }
    forall i | 0 <= i < |p.groups| && p.groups[i].parent == Some(h) ensures p.groups[i].returned {
      assert GroupRight(p, i);
    }
    return RunOwn(h, false);
  }

  // ----- how many steps are left -----

  function Chores(): Worker -> int {
    (w: Worker) => if w.Running? then 2 else if w.Counting? then 1 else 0
  }

  function Waits(): Group -> int {
    (g: Group) => (if g.ownDone then 0 else 1) + (if g.returned then 0 else 1)
  }

  /** How many steps the pool can take before everything is done, if nobody calls it again. */
  function StepsLeft(p: Pool): int {
    3 * |p.queue| + Sum(p.workers, Chores()) + Sum(p.groups, Waits())
  }

  lemma StepsLeftDrops(p: Pool, a: Action)
    requires WellTyped(p) && Enabled(p, a) && !a.Call?
    ensures StepsLeft(Step(p, a)) == StepsLeft(p) - 1
  {
    match a
    case Take(w) => SumUpdate(p.workers, Chores(), w, Running(p.queue[0]));
    case Run(w, fails) =>
      assert p.workers[w] in p.workers;
      var e := p.workers[w].entry;
      var g := RanOnce(p.groups[e.group], e.task, fails);
      SumUpdate(p.workers, Chores(), w, Counting(e));
      SumUpdate(p.groups, Waits(), e.group, g.(error := g.error || fails));
    case CountOff(w) =>
      assert p.workers[w] in p.workers;
      var e := p.workers[w].entry;
      var g := p.groups[e.group];
      SumUpdate(p.workers, Chores(), w, Resting);
      SumUpdate(p.groups, Waits(), e.group, g.(remaining := g.remaining - 1));
    case RunOwn(i, fails) =>
      SumUpdate(p.groups, Waits(), i, RanOnce(p.groups[i], 0, fails).(ownDone := true, callerError := fails));
    case Return(i) => SumUpdate(p.groups, Waits(), i, p.groups[i].(returned := true));
  }

  /** `more` are possible one after another from `p` on, and none of them is a new call. */
  predicate Proceeds(p: Pool, more: seq<Action>)
    decreases |more|
  {
    more == [] || (WellTyped(p) && Enabled(p, more[0]) && !more[0].Call? && Proceeds(Step(p, more[0]), more[1..]))
  }

  lemma {:induction false} ProceedsWithin(workers: nat, actions: seq<Action>, more: seq<Action>)
    requires Proceeds(After(workers, actions), more)
    ensures StepsLeft(After(workers, actions + more)) == StepsLeft(After(workers, actions)) - |more|
    decreases |more|
  {
    hide WellTyped, Enabled, Step, StepsLeft;
    if more == [] {
      assert actions + more == actions;
    } else {
      var p := After(workers, actions);
      assert (actions + [more[0]])[..|actions|] == actions;
      assert actions + [more[0]] + more[1..] == actions + more;
      StepsLeftDrops(p, more[0]);
      ProceedsWithin(workers, actions + [more[0]], more[1..]);
    }
  }

  lemma StepsLeftNotNegative(p: Pool)
    ensures StepsLeft(p) >= 0
  {
    SumNotNegative(p.workers, Chores());
    SumNotNegative(p.groups, Waits());
  }

  /**
   * Once nobody calls the pool any more it takes no more than `StepsLeft` steps, in whatever order, and when it
   * can take no further step every call has returned.
   */
  lemma CallsReturn(workers: nat, actions: seq<Action>, more: seq<Action>)
    requires Proceeds(After(workers, actions), more)
    ensures |more| <= StepsLeft(After(workers, actions))
    ensures var q := After(workers, actions + more);
            (forall a: Action | !a.Call? :: !Enabled(q, a)) ==> forall g <- q.groups :: g.returned
  {
    hide Enabled, StepsLeft;
    var q := After(workers, actions + more);
    ProceedsWithin(workers, actions, more);
    StepsLeftNotNegative(q);
    if g :| 0 <= g < |q.groups| && !q.groups[g].returned {
      var a := NeverStuck(workers, actions + more, g);
    }
  }
}
