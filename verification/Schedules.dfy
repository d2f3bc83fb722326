/**
 * Running a graph's nodes over one shared store of tensors: one at a time, or level by level with the tasks of
 * a level interleaved in any way.
 */
module Schedules {
  import opened Base
  import opened Programs

  // ----- stale buffers -----

  /** Every input of every node is given or produced. */
  predicate Known(order: seq<Node>, given: Env) {
    forall n <- order, x <- n.inputs :: x in given || x in OutNames(order)
  }

  predicate Agrees(store: Env, given: Env) {
    forall x <- given :: x in store && store[x] == given[x]
  }

  /** `b` overrides `a`. */
  function Over(a: Env, b: Env): Env {
    a + b
  }

  /** What a run leaves in the store is what the run computes, over whatever was there before. */
  lemma {:induction false} StaleIndependent(p: Provider, order: seq<Node>, given: Env, store: Env, upto: nat)
    requires Ordered(order) && OutputsApart(order, given) && Known(order, given) && Agrees(store, given) &&
             upto <= |order|
    ensures match Execute(p, order[..upto], given)
            case None => Execute(p, order[..upto], store) == None
            case Some(env) =>
              && Execute(p, order[..upto], store) == Some(Over(store, env))
              && env.Keys == given.Keys + OutNames(order[..upto])
  {
    hide Fire, Known, Ordered, OutputsApart, OutNames, Over;
    if upto == 0 {
      OverGiven(store, given);
    } else {
      var n := upto - 1;
      var part := order[..upto];
      StaleIndependent(p, order, given, store, n);
      assert part[..n] == order[..n];
      OutNamesSnoc(part);
      if Execute(p, order[..n], given).Some? {
        var env := Execute(p, order[..n], given).value;
        StaleStep(p, order, given, store, n, env);
        if Fire(p, order[n], env).Some? {
          OverUpdate(store, env, order[n].Out(), Fire(p, order[n], env).value);
        }
      }
    }
  }

  lemma OverUpdate(store: Env, env: Env, x: string, v: Tensor)
    ensures Over(store, env)[x := v] == Over(store, env[x := v])
  {
  }

  lemma OverHas(store: Env, env: Env, x: string)
    requires x in env
    ensures x in Over(store, env) && Over(store, env)[x] == env[x]
  {
  }

  lemma OverGiven(store: Env, given: Env)
    requires Agrees(store, given)
    ensures Over(store, given) == store && OutNames([]) == {}
  {
  }

  lemma StaleStep(p: Provider, order: seq<Node>, given: Env, store: Env, n: nat, env: Env)
    requires Ordered(order) && Known(order, given) && n < |order| && env.Keys == given.Keys + OutNames(order[..n])
    ensures Fire(p, order[n], Over(store, env)) == Fire(p, order[n], env)
  {
    hide Over, Fire;
    forall x | x in order[n].inputs ensures x in env && x in Over(store, env) && Over(store, env)[x] == env[x] {
      OverHas(store, env, x);
    }
    FireDepends(p, order[n], env, Over(store, env));
  }

  /** Two orders of the same nodes leave the same store. */
  lemma SameStore(p: Provider, a: seq<Node>, b: seq<Node>, given: Env, store: Env)
    requires Ordered(a) && OutputsApart(a, given) && Known(a, given)
    requires Ordered(b) && OutputsApart(b, given) && Known(b, given)
    requires (forall n :: n in a <==> n in b) && Agrees(store, given)
    ensures Execute(p, a, store) == Execute(p, b, store)
  {
    StaleIndependent(p, a, given, store, |a|);
    StaleIndependent(p, b, given, store, |b|);
    assert a[..|a|] == a && b[..|b|] == b;
    if Execute(p, a, given).Some? {
      SameSolutions(p, a, b, given, Execute(p, a, given).value);
    } else if Execute(p, b, given).Some? {
      SameSolutions(p, b, a, given, Execute(p, b, given).value);
    }
  }

  lemma SameSolutions(p: Provider, a: seq<Node>, b: seq<Node>, given: Env, env: Env)
    requires Ordered(a) && OutputsApart(a, given) && Ordered(b) && OutputsApart(b, given)
    requires forall n :: n in a <==> n in b
    requires Execute(p, a, given) == Some(env)
    ensures Execute(p, b, given) == Some(env)
  {
    SolutionIsExecution(p, a, given, env);
    assert OutNames(a) == OutNames(b);
    hide Fire;
    assert Solves(p, b, given, env);
    SolutionIsExecution(p, b, given, env);
  }

  // ----- one level, interleaved -----

  /** How far a task has got: the inputs it has read, and whether it has written its result. */
  datatype Progress = Progress(got: seq<Tensor>, done: bool)

  datatype LevelState = LevelState(store: Env, tasks: seq<Progress>)

  /** A task reads an input, leaves a half-written output, or writes its result. */
  datatype Move = Read(task: nat) | Scribble(task: nat, junk: Tensor) | Finish(task: nat)

  function StartLevel(store: Env, level: seq<Node>): LevelState {
    LevelState(store, seq(|level|, _ => Progress([], false)))
  }

  /** A move that is not possible changes nothing. */
  function Step(p: Provider, level: seq<Node>, s: LevelState, move: Move): LevelState
    requires |s.tasks| == |level|
  {
    var i := move.task;
    if i >= |level| || s.tasks[i].done then s else
    var n, t := level[i], s.tasks[i];
    match move
    case Read(_) =>
      if |t.got| < |n.inputs| && n.inputs[|t.got|] in s.store
      then s.(tasks := s.tasks[i := t.(got := t.got + [s.store[n.inputs[|t.got|]]])])
      else s
    case Scribble(_, junk) => s.(store := s.store[n.Out() := junk])
    case Finish(_) =>
      if |t.got| < |n.inputs| then s else
      match p.compute(n.Op(), n.attributes, t.got)
      case None => s
      case Some(v) => LevelState(s.store[n.Out() := v], s.tasks[i := t.(done := true)])
  }

  function Interleave(p: Provider, level: seq<Node>, store: Env, moves: seq<Move>): (s: LevelState)
    ensures |s.tasks| == |level|
  {
    if moves == [] then StartLevel(store, level)
    else Step(p, level, Interleave(p, level, store, moves[..|moves| - 1]), moves[|moves| - 1])
  }

  predicate Complete(s: LevelState) {
    forall t <- s.tasks :: t.done
  }

  /** No node of the level reads what another writes, and no two write the same tensor. */
  predicate Independent(level: seq<Node>) {
    && (forall i, j | 0 <= i < |level| && 0 <= j < |level| :: level[j].Out() !in level[i].inputs)
    && forall i, j | 0 <= i < j < |level| :: level[i].Out() != level[j].Out()
  }

  /** A task has read nothing but the values from before the level, and a finished one has written its result. */
  ghost predicate TaskRight(p: Provider, n: Node, before: Env, store: Env, t: Progress) {
    && |t.got| <= |n.inputs|
    && (forall k | 0 <= k < |t.got| :: n.inputs[k] in before && t.got[k] == before[n.inputs[k]])
    && (t.done ==> n.Out() in store && Fire(p, n, before) == Some(store[n.Out()]))
  }

  ghost predicate LevelRight(p: Provider, level: seq<Node>, before: Env, s: LevelState) {
    && |s.tasks| == |level|
    && (forall i | 0 <= i < |level| :: TaskRight(p, level[i], before, s.store, s.tasks[i]))
    && (forall x | x in before || x in s.store ::
        x in OutNames(level) || (x in before && x in s.store && s.store[x] == before[x]))
  }

  lemma WriteKeepsTasks(p: Provider, level: seq<Node>, before: Env, s: LevelState, i: nat, v: Tensor)
    requires Independent(level) && LevelRight(p, level, before, s) && i < |level|
    ensures forall j | 0 <= j < |level| && j != i ::
              TaskRight(p, level[j], before, s.store[level[i].Out() := v], s.tasks[j])
    ensures forall x | x in before || x in s.store[level[i].Out() := v] ::
              x in OutNames(level) || (x in before && x in s.store && s.store[level[i].Out() := v][x] == before[x])
  {
    forall j | 0 <= j < |level| && j != i
      ensures TaskRight(p, level[j], before, s.store[level[i].Out() := v], s.tasks[j])
    {
      assert TaskRight(p, level[j], before, s.store, s.tasks[j]);
    }
  }

  lemma ReadRight(p: Provider, level: seq<Node>, before: Env, s: LevelState, i: nat)
    requires Independent(level) && LevelRight(p, level, before, s) && i < |level| && !s.tasks[i].done
    requires |s.tasks[i].got| < |level[i].inputs| && level[i].inputs[|s.tasks[i].got|] in s.store
    ensures LevelRight(p, level, before, Step(p, level, s, Read(i)))
  {
    var x := level[i].inputs[|s.tasks[i].got|];
    assert x !in OutNames(level);
    assert TaskRight(p, level[i], before, s.store, s.tasks[i]);
  }

  lemma FinishRight(p: Provider, level: seq<Node>, before: Env, s: LevelState, i: nat)
    requires Independent(level) && LevelRight(p, level, before, s) && i < |level| && !s.tasks[i].done
    ensures LevelRight(p, level, before, Step(p, level, s, Finish(i)))
  {
    var n, t := level[i], s.tasks[i];
    assert TaskRight(p, n, before, s.store, t);
    if |t.got| == |n.inputs| && p.compute(n.Op(), n.attributes, t.got).Some? {
      GotAll(p, n, before, t);
      WriteKeepsTasks(p, level, before, s, i, p.compute(n.Op(), n.attributes, t.got).value);
    }
  }

  lemma GotAll(p: Provider, n: Node, before: Env, t: Progress)
    requires |t.got| == |n.inputs|
    requires forall k | 0 <= k < |t.got| :: n.inputs[k] in before && t.got[k] == before[n.inputs[k]]
    ensures Fire(p, n, before) == p.compute(n.Op(), n.attributes, t.got)
  {
    assert t.got == seq(|n.inputs|, i requires 0 <= i < |n.inputs| => before[n.inputs[i]]);
  }

  lemma StepRight(p: Provider, level: seq<Node>, before: Env, s: LevelState, move: Move)
    requires Independent(level) && LevelRight(p, level, before, s)
    ensures LevelRight(p, level, before, Step(p, level, s, move))
  {
    var i := move.task;
    if i < |level| && !s.tasks[i].done {
      match move
      case Read(_) =>
        if |s.tasks[i].got| < |level[i].inputs| && level[i].inputs[|s.tasks[i].got|] in s.store {
          ReadRight(p, level, before, s, i);
        }
      case Scribble(_, junk) =>
        WriteKeepsTasks(p, level, before, s, i, junk);
        assert TaskRight(p, level[i], before, s.store, s.tasks[i]);
      case Finish(_) => FinishRight(p, level, before, s, i);
    }
  }

  lemma {:induction false} InterleaveRight(p: Provider, level: seq<Node>, store: Env, moves: seq<Move>)
    requires Independent(level)
    ensures LevelRight(p, level, store, Interleave(p, level, store, moves))
  {
    if moves != [] {
      InterleaveRight(p, level, store, moves[..|moves| - 1]);
      StepRight(p, level, store, Interleave(p, level, store, moves[..|moves| - 1]), moves[|moves| - 1]);
    }
  }

  lemma LevelInputs(level: seq<Node>, n: nat)
    requires Independent(level) && n < |level|
    ensures forall x <- level[n].inputs :: x !in OutNames(level)
    ensures forall i | 0 <= i <= |level| :: OutNames(level[..i]) <= OutNames(level)
  {
  }

  /** `before` with the tensors in `names` as in `after`. */
  function Mixed(before: Env, after: Env, names: set<string>): Env
    requires names <= after.Keys
  {
    map x <- before.Keys + names :: if x in names then after[x] else before[x]
  }

  lemma MixedMore(before: Env, after: Env, names: set<string>, x: string)
    requires names <= after.Keys && x in after
    ensures Mixed(before, after, names)[x := after[x]] == Mixed(before, after, names + {x})
  {
  }

  lemma WrittenOuts(p: Provider, level: seq<Node>, before: Env, s: LevelState)
    requires LevelRight(p, level, before, s) && Complete(s)
    ensures OutNames(level) <= s.store.Keys
    ensures forall n <- level :: Fire(p, n, before) == Some(s.store[n.Out()])
    ensures Mixed(before, s.store, OutNames(level)) == s.store
  {
    forall n | n in level ensures n.Out() in s.store && Fire(p, n, before) == Some(s.store[n.Out()]) {
      var i :| 0 <= i < |level| && level[i] == n;
      assert s.tasks[i] in s.tasks;
      assert TaskRight(p, level[i], before, s.store, s.tasks[i]);
    }
  }

  lemma {:induction false} LevelOneByOne(p: Provider, level: seq<Node>, before: Env, after: Env, upto: nat)
    requires Independent(level) && OutNames(level) <= after.Keys && upto <= |level|
    requires forall n <- level :: Fire(p, n, before) == Some(after[n.Out()])
    ensures OutNames(level[..upto]) <= OutNames(level)
    ensures Execute(p, level[..upto], before) == Some(Mixed(before, after, OutNames(level[..upto])))
  {
    hide Fire, OutNames, Independent, Mixed;
    if upto == 0 {
      NothingMixed(before, after);
    } else {
      var n := upto - 1;
      LevelOneByOne(p, level, before, after, n);
      assert level[..upto][..n] == level[..n] && level[n] in level;
      OutNamesSnoc(level[..upto]);
      LevelInputs(level, n);
      MixedFires(p, level, before, after, n);
      MixedMore(before, after, OutNames(level[..n]), level[n].Out());
    }
  }

  lemma NothingMixed(before: Env, after: Env)
    ensures OutNames([]) == {} && Mixed(before, after, {}) == before
  {
  }

  lemma MixedFires(p: Provider, level: seq<Node>, before: Env, after: Env, n: nat)
    requires Independent(level) && n < |level| && OutNames(level[..n]) <= after.Keys
    ensures Fire(p, level[n], Mixed(before, after, OutNames(level[..n]))) == Fire(p, level[n], before)
  {
    LevelInputs(level, n);
    FireDepends(p, level[n], before, Mixed(before, after, OutNames(level[..n])));
  }

  /** However the tasks of a level interleave, they leave the store that running them one by one leaves. */
  lemma LevelIsSequential(p: Provider, level: seq<Node>, store: Env, moves: seq<Move>)
    requires Independent(level) && Complete(Interleave(p, level, store, moves))
    ensures Execute(p, level, store) == Some(Interleave(p, level, store, moves).store)
  {
    var s := Interleave(p, level, store, moves);
    InterleaveRight(p, level, store, moves);
    WrittenOuts(p, level, store, s);
    LevelOneByOne(p, level, store, s.store, |level|);
    assert level[..|level|] == level;
  }

  // ----- all levels -----

  /** The levels joined up. */
  function Joined(levels: seq<seq<Node>>): seq<Node> {
    if levels == [] then [] else Joined(levels[..|levels| - 1]) + levels[|levels| - 1]
  }

  /** A level of one node runs directly, any other by a schedule, which must see every task finish. */
  function RunOneLevel(p: Provider, level: seq<Node>, store: Env, moves: seq<Move>): Option<Env> {
    if |level| == 1 then Execute(p, level, store) else
    var s := Interleave(p, level, store, moves);
    if Complete(s) then Some(s.store) else None
  }

  /** One level after another; nothing if some node of its own fails or some schedule leaves a task unfinished. */
  function Wavefront(p: Provider, levels: seq<seq<Node>>, store: Env, schedules: seq<seq<Move>>): Option<Env>
    requires |schedules| == |levels|
  {
    if levels == [] then Some(store) else
    var n := |levels| - 1;
    match Wavefront(p, levels[..n], store, schedules[..n])
    case None => None
    case Some(before) => RunOneLevel(p, levels[n], before, schedules[n])
  }

  lemma {:induction false} ExecuteAppend(p: Provider, a: seq<Node>, b: seq<Node>, store: Env)
    ensures Execute(p, a + b, store) ==
            match Execute(p, a, store) case None => None case Some(middle) => Execute(p, b, middle)
  {
    if b == [] {
      assert a + b == a;
    } else {
      var n := |b| - 1;
      assert (a + b)[..|a + b| - 1] == a + b[..n];
      ExecuteAppend(p, a, b[..n], store);
    }
  }

  lemma {:induction false} WavefrontIsSequential(p: Provider, levels: seq<seq<Node>>, store: Env,
                                                 schedules: seq<seq<Move>>)
    requires |schedules| == |levels| && (forall level <- levels :: Independent(level))
    requires Wavefront(p, levels, store, schedules).Some?
    ensures Execute(p, Joined(levels), store) == Wavefront(p, levels, store, schedules)
  {
    if levels != [] {
      var n := |levels| - 1;
      WavefrontIsSequential(p, levels[..n], store, schedules[..n]);
      var before := Wavefront(p, levels[..n], store, schedules[..n]).value;
      if |levels[n]| != 1 {
        LevelIsSequential(p, levels[n], before, schedules[n]);
      }
      ExecuteAppend(p, Joined(levels[..n]), levels[n], store);
    }
  }

  /**
   * A wavefront run leaves the store that the sequential run leaves, whatever the interleaving inside each
   * level and whatever stale tensors were in the store.
   */
  lemma WavefrontEqualsSequential(p: Provider, order: seq<Node>, levels: seq<seq<Node>>, given: Env, store: Env,
                                  schedules: seq<seq<Move>>)
    requires |schedules| == |levels| && forall level <- levels :: Independent(level)
    requires Ordered(order) && OutputsApart(order, given) && Known(order, given)
    requires Ordered(Joined(levels)) && OutputsApart(Joined(levels), given)
    requires forall n :: n in order <==> n in Joined(levels)
    requires Agrees(store, given) && Wavefront(p, levels, store, schedules).Some?
    ensures Wavefront(p, levels, store, schedules) == Execute(p, order, store)
  {
    WavefrontIsSequential(p, levels, store, schedules);
    assert OutNames(order) == OutNames(Joined(levels));
    SameStore(p, order, Joined(levels), given, store);
  }

  // ----- a level cannot fail or get stuck when the sequential run does not -----

  /** A task's next input is there to be read, and its operator succeeds on what it reads. */
  lemma TaskReady(p: Provider, level: seq<Node>, store: Env, moves: seq<Move>, i: nat)
    requires Independent(level) && i < |level| && Execute(p, level, store).Some?
    ensures var s, n := Interleave(p, level, store, moves), level[i];
            && |s.tasks[i].got| <= |n.inputs|
            && (|s.tasks[i].got| < |n.inputs| ==> n.inputs[|s.tasks[i].got|] in s.store)
            && (|s.tasks[i].got| == |n.inputs| ==> p.compute(n.Op(), n.attributes, s.tasks[i].got).Some?)
  {
    var s := Interleave(p, level, store, moves);
    InterleaveRight(p, level, store, moves);
    assert TaskRight(p, level[i], store, s.store, s.tasks[i]);
    assert level[..|level|] == level;
    FiresBefore(p, level, store, i, |level|);
    LevelInputs(level, i);
    if |s.tasks[i].got| == |level[i].inputs| {
      GotAll(p, level[i], store, s.tasks[i]);
    }
  }

  predicate OthersKept(a: LevelState, b: LevelState, i: nat) {
    |a.tasks| == |b.tasks| && forall j | 0 <= j < |a.tasks| && j != i :: a.tasks[j] == b.tasks[j]
  }

  /** Any unfinished task can finish, by its own moves alone. */
  lemma {:induction false} TaskCanFinish(p: Provider, level: seq<Node>, store: Env, moves: seq<Move>, i: nat)
      returns (more: seq<Move>)
    requires Independent(level) && i < |level| && Execute(p, level, store).Some?
    ensures Interleave(p, level, store, moves + more).tasks[i].done
    ensures OthersKept(Interleave(p, level, store, moves), Interleave(p, level, store, moves + more), i)
    decreases |level[i].inputs| - |Interleave(p, level, store, moves).tasks[i].got|
  {
    var s := Interleave(p, level, store, moves);
    if s.tasks[i].done {
      assert moves + [] == moves;
      return [];
    }
    TaskReady(p, level, store, moves, i);
    var next := if |s.tasks[i].got| < |level[i].inputs| then Read(i) else Finish(i);
    assert (moves + [next])[..|moves|] == moves;
    assert Interleave(p, level, store, moves + [next]) == Step(p, level, s, next);
    if next.Finish? {
      return [next];
    }
    var rest := TaskCanFinish(p, level, store, moves + [next], i);
    assert moves + [next] + rest == moves + ([next] + rest);
    return [next] + rest;
  }

  lemma {:induction false} TasksCanFinish(p: Provider, level: seq<Node>, store: Env, moves: seq<Move>, upto: nat)
      returns (more: seq<Move>)
    requires Independent(level) && upto <= |level| && Execute(p, level, store).Some?
    ensures forall i | 0 <= i < upto :: Interleave(p, level, store, moves + more).tasks[i].done
  {
    if upto == 0 {
      return [];
    }
    var first := TasksCanFinish(p, level, store, moves, upto - 1);
    var last := TaskCanFinish(p, level, store, moves + first, upto - 1);
    assert moves + first + last == moves + (first + last);
    return first + last;
  }

  /** When the sequential run of a level succeeds, every interleaving of it, however begun, can be completed. */
  lemma LevelCanFinish(p: Provider, level: seq<Node>, store: Env, moves: seq<Move>) returns (more: seq<Move>)
    requires Independent(level) && Execute(p, level, store).Some?
    ensures Complete(Interleave(p, level, store, moves + more))
  {
    more := TasksCanFinish(p, level, store, moves, |level|);
  }

  /** A completed level leaves the store of its sequential run. */
  lemma RunsToEnd(p: Provider, level: seq<Node>, store: Env, moves: seq<Move>)
    requires Independent(level) && Complete(Interleave(p, level, store, moves))
    ensures RunOneLevel(p, level, store, moves) == Execute(p, level, store)
  {
    LevelIsSequential(p, level, store, moves);
  }

  /** However its levels begin, a wavefront run can be completed whenever the sequential run succeeds. */
  lemma {:induction false} WavefrontCanFinish(p: Provider, levels: seq<seq<Node>>, store: Env, begun: seq<seq<Move>>)
      returns (schedules: seq<seq<Move>>)
    requires |begun| == |levels| && (forall level <- levels :: Independent(level))
    requires Execute(p, Joined(levels), store).Some?
    ensures |schedules| == |levels| && forall k | 0 <= k < |levels| :: begun[k] <= schedules[k]
    ensures Wavefront(p, levels, store, schedules) == Execute(p, Joined(levels), store)
  {
    if levels == [] {
      return [];
    }
    hide Independent, Interleave, Complete, Fire;
    var n := |levels| - 1;
    assert levels[n] in levels && forall level <- levels[..n] :: level in levels;
    ExecuteAppend(p, Joined(levels[..n]), levels[n], store);
    hide Execute;
    var before := WavefrontCanFinish(p, levels[..n], store, begun[..n]);
    var middle := Execute(p, Joined(levels[..n]), store).value;
    var more := LevelCanFinish(p, levels[n], middle, begun[n]);
    schedules := before + [begun[n] + more];
    assert schedules[..n] == before && schedules[n] == begun[n] + more;
    RunsToEnd(p, levels[n], middle, begun[n] + more);
  }

  lemma {:induction false} FiresBefore(p: Provider, level: seq<Node>, store: Env, i: nat, upto: nat)
    requires Independent(level) && i < upto <= |level| && Execute(p, level[..upto], store).Some?
    ensures Fire(p, level[i], store).Some?
    ensures var r := Execute(p, level[..upto], store).value;
            forall x | x !in OutNames(level) :: (x in r <==> x in store) && (x in r ==> r[x] == store[x])
  {
    var n := upto - 1;
    assert level[..upto][..n] == level[..n];
    LevelInputs(level, n);
    if n > 0 {
      FiresBefore(p, level, store, if i < n then i else 0, n);
    }
    FireDepends(p, level[n], store, Execute(p, level[..n], store).value);
  }
}
