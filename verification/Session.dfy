/** An inference session: prepared once from a model, then run on inputs, sequentially or level by level. */
module Sessions {
  import opened Base
  import opened Programs
  import opened Edges
  import opened Paths
  import opened Graphs
  import opened Rewrites
  import opened Passes
  import opened Cycles
  import opened Optimizer
  import opened Schedules

  // ----- from names to nodes -----

  function JoinedNames(levels: seq<seq<string>>): seq<string> {
    if levels == [] then [] else JoinedNames(levels[..|levels| - 1]) + levels[|levels| - 1]
  }

  function LevelNodes(e: Entries, levels: seq<seq<string>>): (r: seq<seq<Node>>)
    requires forall level <- levels, x <- level :: x in e
    ensures |r| == |levels|
  {
    seq(|levels|, k requires 0 <= k < |levels| => NodesOf(e, levels[k]))
  }

  lemma {:induction false} JoinedHolds(levels: seq<seq<string>>, x: string)
    ensures x in JoinedNames(levels) <==> exists level <- levels :: x in level
  {
    if levels != [] {
      var n := |levels| - 1;
      assert levels == levels[..n] + [levels[n]];
      JoinedHolds(levels[..n], x);
    }
  }

  lemma {:induction false} JoinedNodes(e: Entries, levels: seq<seq<string>>)
    requires forall level <- levels, x <- level :: x in e
    ensures (forall x <- JoinedNames(levels) :: x in e) &&
            Joined(LevelNodes(e, levels)) == NodesOf(e, JoinedNames(levels))
  {
    if levels != [] {
      var n := |levels| - 1;
      assert levels == levels[..n] + [levels[n]];
      JoinedNodes(e, levels[..n]);
      assert LevelNodes(e, levels)[..n] == LevelNodes(e, levels[..n]);
    }
  }

  lemma {:induction false} AtLevelNoRepeats(order: seq<string>, level: map<string, nat>, k: nat)
    requires NoRepeats(order)
    ensures NoRepeats(AtLevel(order, level, k))
  {
    if order != [] {
      var n := |order| - 1;
      AtLevelNoRepeats(order[..n], level, k);
      forall i | 0 <= i < |AtLevel(order[..n], level, k)| ensures AtLevel(order[..n], level, k)[i] != order[n] {
        assert AtLevel(order[..n], level, k)[i] in order[..n];
      }
    }
  }

  /** Levels, one after another, hold no name twice. */
  lemma {:induction false} JoinedOnce(sorted: seq<string>, level: map<string, nat>, levels: seq<seq<string>>, upto: nat)
    requires NoRepeats(sorted) && upto <= |levels|
    requires forall k | 0 <= k < |levels| :: levels[k] == AtLevel(sorted, level, k)
    ensures NoRepeats(JoinedNames(levels[..upto]))
    ensures forall x <- JoinedNames(levels[..upto]) :: x in sorted && x in level && level[x] < upto
  {
    if upto > 0 {
      var n := upto - 1;
      JoinedOnce(sorted, level, levels, n);
      assert levels[..upto][..n] == levels[..n];
      AtLevelNoRepeats(sorted, level, n);
      var a, b := JoinedNames(levels[..n]), levels[n];
      forall i, j | 0 <= i < |a| && 0 <= j < |b| ensures a[i] != b[j] {
        assert a[i] in a && b[j] in b;
      }
    }
  }

  // ----- what the levels give -----

  /** A producer's level is below its readers'. */
  lemma ReadsBelow(e: Entries, level: map<string, nat>, x: string, y: string)
    requires EdgesRight(e) && Named(e) && Levelled(e, level) && x in e && y in e && Proper(e[x].node) &&
             Proper(e[y].node)
    requires e[y].node.Out() in e[x].node.inputs
    ensures level[y] < level[x]
  {
    assert x != y;
    assert e[y].node.Out() in e[y].node.outputs;
    ChildReads(e, y, x);
    AboveAll(e[x].parents, level);
  }

  /** A sequence of names whose levels never fall is a topological order. */
  lemma RisingIsOrdered(e: Entries, level: map<string, nat>, names: seq<string>)
    requires EdgesRight(e) && Named(e) && Levelled(e, level) && forall x <- names :: x in e
    requires forall x <- e :: Proper(e[x].node)
    requires forall i, j | 0 <= i <= j < |names| ::
               names[i] in level && names[j] in level && level[names[i]] <= level[names[j]]
    ensures Ordered(NodesOf(e, names))
  {
    var nodes := NodesOf(e, names);
    forall i, j | 0 <= i <= j < |nodes| ensures nodes[j].Out() !in nodes[i].inputs {
      assert names[i] in names && names[j] in names;
      if nodes[j].Out() in nodes[i].inputs {
        ReadsBelow(e, level, names[i], names[j]);
        assert false;
      }
    }
  }

  lemma {:induction false} JoinedRises(sorted: seq<string>, level: map<string, nat>, levels: seq<seq<string>>,
                                       upto: nat)
    requires upto <= |levels| && forall k | 0 <= k < |levels| :: levels[k] == AtLevel(sorted, level, k)
    ensures var names := JoinedNames(levels[..upto]);
            && (forall x <- names :: x in level && level[x] < upto)
            && forall i, j | 0 <= i <= j < |names| ::
                names[i] in level && names[j] in level && level[names[i]] <= level[names[j]]
  {
    if upto > 0 {
      var n := upto - 1;
      JoinedRises(sorted, level, levels, n);
      assert levels[..upto][..n] == levels[..n];
      var a, b := JoinedNames(levels[..n]), levels[n];
      assert JoinedNames(levels[..upto]) == a + b;
      forall i | 0 <= i < |a| ensures a[i] in level && level[a[i]] < n {
        assert a[i] in a;
      }
      forall i | 0 <= i < |b| ensures b[i] in level && level[b[i]] == n {
        assert b[i] in b;
      }
    }
  }

  /** The tasks of one level are independent. */
  lemma LevelIndependent(e: Entries, level: map<string, nat>, names: seq<string>, k: nat)
    requires EdgesRight(e) && Named(e) && Levelled(e, level) && NoRepeats(names) && (forall x <- names :: x in e)
    requires (forall x <- e :: Proper(e[x].node)) && (forall x <- names :: level[x] == k) && OutsDiffer(e)
    ensures Independent(NodesOf(e, names))
  {
    var nodes := NodesOf(e, names);
    forall i, j | 0 <= i < |nodes| && 0 <= j < |nodes| ensures nodes[j].Out() !in nodes[i].inputs {
      assert names[i] in names && names[j] in names;
      if nodes[j].Out() in nodes[i].inputs {
        ReadsBelow(e, level, names[i], names[j]);
        assert false;
      }
    }
  }

  predicate OutsDiffer(e: Entries) {
    forall x <- e, y <- e | x != y :: e[x].node.Out() != e[y].node.Out()
  }

  lemma DistinctOuts(e: Entries, order: seq<string>, nodes: seq<Node>)
    requires (forall x :: x in order <==> x in e) && nodes == NodesOf(e, order) && Distinct(nodes)
    ensures OutsDiffer(e)
  {
    forall x, y | x in e && y in e && x != y ensures e[x].node.Out() != e[y].node.Out() {
      assert x in order && y in order;
      var i :| 0 <= i < |order| && order[i] == x;
      var j :| 0 <= j < |order| && order[j] == y;
      if i < j {
        assert nodes[i].Out() != nodes[j].Out();
      } else {
        assert nodes[j].Out() != nodes[i].Out();
      }
    }
  }

  lemma SameMembers(e: Entries, a: seq<string>, b: seq<string>)
    requires (forall x :: x in a <==> x in e) && (forall x :: x in b <==> x in e)
    ensures forall n :: n in NodesOf(e, a) <==> n in NodesOf(e, b)
  {
    forall n ensures n in NodesOf(e, a) <==> n in NodesOf(e, b) {
      NodeNamed(e, a, n);
      NodeNamed(e, b, n);
    }
  }

  lemma NodeNamed(e: Entries, order: seq<string>, n: Node)
    requires forall x <- order :: x in e
    ensures n in NodesOf(e, order) <==> exists x <- order :: e[x].node == n
  {
    if n in NodesOf(e, order) {
      var i :| 0 <= i < |order| && NodesOf(e, order)[i] == n;
      assert order[i] in order;
    }
    if exists x <- order :: e[x].node == n {
      var x :| x in order && e[x].node == n;
      var i :| 0 <= i < |order| && order[i] == x;
      assert NodesOf(e, order)[i] == n;
    }
  }

  // ----- the schedule of a session -----

  /** The tensors that are there before any node runs. */
  function Given(inits: Env, inputName: string, input: Tensor): Env {
    inits[inputName := input]
  }

  /** A prepared schedule for a program's nodes. */
  predicate Scheduled(nodes: seq<Node>, given: Env, order: seq<Node>, levels: seq<seq<Node>>) {
    && Ordered(order) && OutputsApart(order, given) && Known(order, given)
    && Ordered(Joined(levels)) && OutputsApart(Joined(levels), given)
    && (forall level <- levels :: Independent(level))
    && SameItems(nodes, order) && SameItems(nodes, Joined(levels))
  }

  predicate SameItems(a: seq<Node>, b: seq<Node>) {
    (forall n <- a :: n in b) && forall n <- b :: n in a
  }

  /** The names a topological order and its levels hold, and what they mean for the nodes. */
  ghost predicate Levels(e: Entries, sorted: seq<string>, level: map<string, nat>, levels: seq<seq<string>>) {
    && EdgesRight(e) && Named(e) && TopOrder(e, sorted) && Levelled(e, level) && InLevels(sorted, level, levels)
  }

  lemma LevelNames(e: Entries, sorted: seq<string>, level: map<string, nat>, levels: seq<seq<string>>)
    requires Levels(e, sorted, level, levels)
    ensures forall k, x | 0 <= k < |levels| && x in levels[k] :: x in e && level[x] == k
    ensures forall x :: x in sorted <==> x in e
    ensures forall x :: x in JoinedNames(levels) <==> x in e
    ensures NoRepeats(JoinedNames(levels))
  {
    assert levels[..|levels|] == levels;
    JoinedOnce(sorted, level, levels, |levels|);
    assert forall x :: x in sorted <==> x in (set y <- sorted);
    forall x ensures x in JoinedNames(levels) <==> x in e {
      JoinedHolds(levels, x);
      if x in e {
        assert x in levels[level[x]];
      }
    }
  }

  lemma LevelsJoinOrdered(e: Entries, sorted: seq<string>, level: map<string, nat>, levels: seq<seq<string>>)
    requires Levels(e, sorted, level, levels) && forall x <- e :: Proper(e[x].node)
    requires forall l <- levels, x <- l :: x in e
    ensures Ordered(Joined(LevelNodes(e, levels)))
  {
    hide EdgesRight, Levelled, TopOrder, AtLevel;
    LevelNames(e, sorted, level, levels);
    assert levels[..|levels|] == levels;
    JoinedRises(sorted, level, levels, |levels|);
    RisingIsOrdered(e, level, JoinedNames(levels));
    JoinedNodes(e, levels);
  }

  lemma LevelsIndependent(e: Entries, sorted: seq<string>, level: map<string, nat>, levels: seq<seq<string>>)
    requires Levels(e, sorted, level, levels) && (forall x <- e :: Proper(e[x].node)) && OutsDiffer(e)
    requires forall l <- levels, x <- l :: x in e
    ensures forall l <- LevelNodes(e, levels) :: Independent(l)
  {
    LevelNames(e, sorted, level, levels);
    forall k | 0 <= k < |levels| ensures Independent(NodesOf(e, levels[k])) {
      AtLevelNoRepeats(sorted, level, k);
      LevelIndependent(e, level, levels[k], k);
    }
  }

  lemma NamesApart(e: Entries, names: seq<string>, given: Env)
    requires OutsDiffer(e) && NoRepeats(names) && forall x <- names :: x in e
    requires forall x <- e :: e[x].node.Out() !in given
    ensures OutputsApart(NodesOf(e, names), given)
  {
    forall i | 0 <= i < |names| ensures names[i] in e {
      assert names[i] in names;
    }
  }

  /** The graph's order and levels make a schedule for the program. */
  lemma GraphSchedules(e: Entries, order: seq<string>, q: Program, first: seq<string>, sorted: seq<string>,
                       level: map<string, nat>, levels: seq<seq<string>>, given: Env)
    requires Shows(e, order, q) && WellFormed(q) && TopOrder(e, first) && Levels(e, sorted, level, levels)
    requires forall n <- q.nodes :: n.Out() !in given
    requires Known(q.nodes, given)
    ensures (forall x <- first :: x in e) && forall l <- levels, x <- l :: x in e
    ensures Scheduled(q.nodes, given, NodesOf(e, first), LevelNodes(e, levels))
  {
    LevelNames(e, sorted, level, levels);
    assert forall x :: x in first <==> x in (set y <- first);
    DistinctOuts(e, order, q.nodes);
    TopOrderRuns(e, first);
    NamesApart(e, first, given);
    JoinedNodes(e, levels);
    NamesApart(e, JoinedNames(levels), given);
    SameMembers(e, order, first);
    SameMembers(e, order, JoinedNames(levels));
    assert forall l <- levels, x <- l :: x in e;
    LevelsJoinOrdered(e, sorted, level, levels);
    LevelsIndependent(e, sorted, level, levels);
    SameKnown(q.nodes, NodesOf(e, first), given);
  }

  lemma SameKnown(a: seq<Node>, b: seq<Node>, given: Env)
    requires Known(a, given) && forall n :: n in a <==> n in b
    ensures Known(b, given)
  {
    assert OutNames(a) == OutNames(b);
  }

  // ----- the session -----

  const EMPTY: Tensor := Tensor([], [])

  function Slots(q: Program, inputName: string): set<string> {
    q.inits.Keys + {inputName} + OutNames(q.nodes)
  }

  /** The order and the levels hold the program's nodes, and there is a slot for whatever they read and write. */
  predicate Runnable(q: Program, inputName: string, order: seq<Node>, levels: seq<seq<Node>>) {
    && SameItems(q.nodes, order) && SameItems(q.nodes, Joined(levels))
    && forall n <- q.nodes :: n.Out() !in q.inits && forall x <- n.inputs :: x in Slots(q, inputName)
  }

  lemma GraphRunnable(e: Entries, order: seq<string>, q: Program, first: seq<string>, sorted: seq<string>,
                      level: map<string, nat>, levels: seq<seq<string>>, inputName: string)
    requires Shows(e, order, q) && TopOrder(e, first) && Levels(e, sorted, level, levels)
    requires forall n <- q.nodes, x <- n.inputs :: x in Slots(q, inputName)
    ensures (forall x <- first :: x in e) && forall l <- levels, x <- l :: x in e
    ensures Runnable(q, inputName, NodesOf(e, first), LevelNodes(e, levels))
  {
    LevelNames(e, sorted, level, levels);
    assert forall x :: x in first <==> x in (set y <- first);
    assert forall l <- levels, x <- l :: x in e;
    JoinedNodes(e, levels);
    SameMembers(e, order, first);
    SameMembers(e, order, JoinedNames(levels));
  }

  lemma SameSchedule(q: Program, x: string, a: Tensor, b: Tensor, order: seq<Node>, levels: seq<seq<Node>>)
    requires Scheduled(q.nodes, Given(q.inits, x, a), order, levels)
    ensures Scheduled(q.nodes, Given(q.inits, x, b), order, levels)
  {
  }

  class Session {
    const provider: Provider
    const order: seq<Node>
    const levels: seq<seq<Node>>
    const inputName: string
    const outputName: string
    /** Every tensor the session holds; a run finds what earlier runs left. */
    var tensors: Env
    ghost const program: Program

    constructor (provider: Provider, order: seq<Node>, levels: seq<seq<Node>>, inputName: string, outputName: string,
                 tensors: Env, ghost program: Program)
      ensures this.provider == provider && this.order == order && this.levels == levels
      ensures this.inputName == inputName && this.outputName == outputName
      ensures this.tensors == tensors && this.program == program
    {
      this.provider, this.order, this.levels := provider, order, levels;
      this.inputName, this.outputName := inputName, outputName;
      this.tensors, this.program := tensors, program;
    }

    /** A session that can be run, though its result may depend on earlier runs. */
    ghost predicate Ready()
      reads this
    {
      && Runnable(program, inputName, order, levels)
      && inputName !in program.inits && outputName in Slots(program, inputName)
      && tensors.Keys == Slots(program, inputName)
      && forall x <- program.inits :: tensors[x] == program.inits[x]
    }

    /** A session for a well-formed model. */
    ghost predicate Valid()
      reads this
    {
      Ready() && Scheduled(program.nodes, Given(program.inits, inputName, EMPTY), order, levels)
    }

    /** Runs one node on the tensors in the store. */
    method ExecuteNode(node: Node) returns (ok: bool)
      requires Ready() && node in program.nodes && forall x <- node.inputs :: x in tensors
      modifies this
      ensures Ready()
      ensures match Fire(provider, node, old(tensors))
              case None => !ok && tensors == old(tensors)
              case Some(v) => ok && tensors == old(tensors)[node.Out() := v]
    {
      var inputs: seq<Tensor> := [];
      var store := tensors;
      for i := 0 to |node.inputs|
        invariant |inputs| == i && forall j | 0 <= j < i :: inputs[j] == store[node.inputs[j]]
      {
        assert node.inputs[i] in node.inputs;
        inputs := inputs + [store[node.inputs[i]]];
      }
      assert inputs == seq(|node.inputs|, i requires 0 <= i < |node.inputs| => store[node.inputs[i]]);
      var output := provider.compute(node.Op(), node.attributes, inputs);
      if output.None? {
        return false;
      }
      tensors := tensors[node.Out() := output.value];
      return true;
    }

    method SetInput(input: Tensor)
      requires Ready()
      modifies this
      ensures Ready() && tensors == old(tensors)[inputName := input]
    {
      tensors := tensors[inputName := input];
    }

    /**
     * Runs the nodes in topological order. For a well-formed model the result depends only on the input and the
     * initializers.
     */
    method Run(input: Tensor) returns (r: Result<Tensor>)
      requires Ready()
      modifies this
      ensures Ready()
      ensures input.data == [] ==> r.Err? && tensors == old(tensors)
      ensures input.data != [] ==>
                match Execute(provider, order, old(tensors)[inputName := input])
                case None => r.Err?
                case Some(store) => outputName in store && r == Ok(store[outputName]) && tensors == store
      ensures old(Valid()) && input.data != [] ==>
                match Execute(provider, order, Given(program.inits, inputName, input))
                case None => r.Err?
                case Some(env) =>
                  && outputName in env && r == Ok(env[outputName])
                  && tensors == Over(old(tensors)[inputName := input], env)
    {
      hide Scheduled, Execute, Runnable;
      if input.data == [] {
        return Err("Inference input tensor is empty");
      }
      SetInput(input);
      if Scheduled(program.nodes, Given(program.inits, inputName, EMPTY), order, levels) {
        StaleRun(provider, program, inputName, input, order, levels, tensors);
      }
      var ok := RunInOrder();
      if !ok {
        return Err("operator failed");
      }
      return Ok(tensors[outputName]);
    }

    /** Runs the nodes one after another, up to the first that fails. */
    method RunInOrder() returns (ok: bool)
      requires Ready()
      modifies this
      ensures Ready()
      ensures match Execute(provider, order, old(tensors)) case None => !ok case Some(env) => ok && tensors == env
    {
      hide Fire, Runnable;
      ghost var start := tensors;
      for i := 0 to |order|
        invariant Ready() && Execute(provider, order[..i], start) == Some(tensors)
      {
        ReadsSlots(program, inputName, order, levels, order[i]);
        assert order[..i + 1][..i] == order[..i];
        ok := ExecuteNode(order[i]);
        if !ok {
          FailsEarly(provider, order, start, i);
          return;
        }
      }
      assert order[..|order|] == order;
      return true;
    }

    /**
     * Runs level by level: a level of one node directly, any other by its own schedule, which must see every task
     * finish. When that succeeds a well-formed model has the value the sequential run gives.
     */
    method RunParallel(input: Tensor, schedules: seq<seq<Move>>) returns (r: Result<Tensor>)
      requires Ready() && |schedules| == |levels|
      modifies this
      ensures Ready()
      ensures input.data == [] ==> r.Err? && tensors == old(tensors)
      ensures input.data != [] ==>
                match Wavefront(provider, levels, old(tensors)[inputName := input], schedules)
                case None => r.Err?
                case Some(store) => outputName in store && r == Ok(store[outputName]) && tensors == store
      ensures old(Valid()) && r.Ok? ==>
                match Execute(provider, order, Given(program.inits, inputName, input))
                case None => false
                case Some(env) =>
                  && outputName in env && r == Ok(env[outputName])
                  && tensors == Over(old(tensors)[inputName := input], env)
    {
      hide Scheduled, Wavefront, Execute, Runnable;
      if input.data == [] {
        return Err("Inference input tensor is empty");
      }
      SetInput(input);
      ghost var start := tensors;
      var ok := RunLevels(schedules);
      if !ok {
        return Err("a task of a level did not finish");
      }
      if Scheduled(program.nodes, Given(program.inits, inputName, EMPTY), order, levels) {
        StaleRun(provider, program, inputName, input, order, levels, start);
        ParallelRun(provider, program, inputName, input, order, levels, start, schedules);
      }
      return Ok(tensors[outputName]);
    }

    method RunLevels(schedules: seq<seq<Move>>) returns (ok: bool)
      requires Ready() && |schedules| == |levels|
      modifies this
      ensures Ready()
      ensures match Wavefront(provider, levels, old(tensors), schedules)
              case None => !ok
              case Some(store) => ok && tensors == store
    {
      hide RunOneLevel, Runnable;
      ghost var start := tensors;
      for i := 0 to |levels|
        invariant Ready() && Wavefront(provider, levels[..i], start, schedules[..i]) == Some(tensors)
      {
        assert levels[..i + 1][..i] == levels[..i] && schedules[..i + 1][..i] == schedules[..i];
        ok := RunLevel(i, schedules[i]);
        if !ok {
          WavefrontFails(provider, levels, start, schedules, i);
          return;
        }
      }
      assert levels[..|levels|] == levels && schedules[..|schedules|] == schedules;
      return true;
    }

    method RunLevel(i: nat, schedule: seq<Move>) returns (ok: bool)
      requires Ready() && i < |levels|
      modifies this
      ensures Ready()
      ensures match RunOneLevel(provider, levels[i], old(tensors), schedule)
              case None => !ok
              case Some(store) => ok && tensors == store
    {
      hide Fire, Runnable, Complete;
      LevelInside(program, inputName, order, levels, i);
      if |levels[i]| == 1 {
        assert levels[i][0] in levels[i];
        assert levels[i][..0] == [];
        assert Execute(provider, [], tensors) == Some(tensors);
        ok := ExecuteNode(levels[i][0]);
      } else {
        var s := Interleave(provider, levels[i], tensors, schedule);
        if !Complete(s) {
          return false;
        }
        InterleaveKeeps(provider, levels[i], tensors, schedule);
        tensors := s.store;
        return true;
      }
    }
  }

  // ----- facts about a schedule -----

  lemma ReadsSlots(q: Program, x: string, order: seq<Node>, levels: seq<seq<Node>>, n: Node)
    requires Runnable(q, x, order, levels) && n in order
    ensures n in q.nodes && forall y <- n.inputs :: y in Slots(q, x)
  {
  }

  lemma {:induction false} WavefrontFails(p: Provider, levels: seq<seq<Node>>, store: Env, schedules: seq<seq<Move>>,
                                          i: nat)
    requires |schedules| == |levels| && i < |levels| && Wavefront(p, levels[..i + 1], store, schedules[..i + 1]) == None
    ensures Wavefront(p, levels, store, schedules) == None
  {
    if i + 1 < |levels| {
      var n := |levels| - 1;
      assert levels[..n][..i + 1] == levels[..i + 1] && schedules[..n][..i + 1] == schedules[..i + 1];
      WavefrontFails(p, levels[..n], store, schedules[..n], i);
    } else {
      assert levels[..i + 1] == levels && schedules[..i + 1] == schedules;
    }
  }

  lemma {:induction false} FailsEarly(p: Provider, order: seq<Node>, store: Env, i: nat)
    requires i < |order| && Execute(p, order[..i + 1], store) == None
    ensures Execute(p, order, store) == None
  {
    assert order == order[..i + 1] + order[i + 1..];
    ExecuteAppend(p, order[..i + 1], order[i + 1..], store);
  }

  /** A run over the session's store computes what a run over the given tensors alone computes. */
  lemma StaleRun(p: Provider, q: Program, x: string, input: Tensor, order: seq<Node>, levels: seq<seq<Node>>,
                 store: Env)
    requires Scheduled(q.nodes, Given(q.inits, x, EMPTY), order, levels) && x in store && store[x] == input
    requires forall y <- q.inits :: y in store && y != x && store[y] == q.inits[y]
    ensures match Execute(p, order, Given(q.inits, x, input))
            case None => Execute(p, order, store) == None
            case Some(env) => Execute(p, order, store) == Some(Over(store, env)) && env.Keys == Slots(q, x)
  {
    SameSchedule(q, x, EMPTY, input, order, levels);
    StaleIndependent(p, order, Given(q.inits, x, input), store, |order|);
    assert order[..|order|] == order;
    assert OutNames(order) == OutNames(q.nodes);
  }

  lemma SameRun(p: Provider, q: Program, x: string, input: Tensor, order: seq<Node>, levels: seq<seq<Node>>, store: Env)
    requires Scheduled(q.nodes, Given(q.inits, x, EMPTY), order, levels) && x in store && store[x] == input
    requires forall y <- q.inits :: y in store && y != x && store[y] == q.inits[y]
    ensures Execute(p, Joined(levels), store) == Execute(p, order, store)
  {
    SameSchedule(q, x, EMPTY, input, order, levels);
    SameKnown(order, Joined(levels), Given(q.inits, x, input));
    SameStore(p, Joined(levels), order, Given(q.inits, x, input), store);
  }

  /**
   * A run on tensors that fill their shapes leaves such tensors, so no operator ever sees another kind; the store a
   * session starts with is of this kind if the initializers are.
   */
  lemma RunKeepsSizes(p: Provider, q: Program, order: seq<Node>, input: Tensor)
    requires KeepsSizes(p) && q.inputs != [] && AllSized(q.inits) && Sized(input)
    ensures AllSized(FirstStore(q))
    ensures forall store: Env | AllSized(store) ::
              Execute(p, order, store[q.inputs[0] := input]).Some? ==>
                AllSized(Execute(p, order, store[q.inputs[0] := input]).value)
  {
    forall store: Env | AllSized(store) && Execute(p, order, store[q.inputs[0] := input]).Some?
      ensures AllSized(Execute(p, order, store[q.inputs[0] := input]).value)
    {
      ExecuteKeepsSizes(p, order, store[q.inputs[0] := input]);
    }
  }

  lemma {:induction false} InJoined(levels: seq<seq<Node>>, i: nat, n: Node)
    requires i < |levels| && n in levels[i]
    ensures n in Joined(levels)
  {
    if i < |levels| - 1 {
      InJoined(levels[..|levels| - 1], i, n);
    }
  }

  lemma LevelInside(q: Program, x: string, order: seq<Node>, levels: seq<seq<Node>>, i: nat)
    requires Runnable(q, x, order, levels) && i < |levels|
    ensures forall n <- levels[i] :: n in q.nodes && (forall y <- n.inputs :: y in Slots(q, x)) && n.Out() !in q.inits
    ensures OutNames(levels[i]) <= Slots(q, x) && OutNames(levels[i]) !! q.inits.Keys
  {
    forall n | n in levels[i] ensures n in q.nodes {
      InJoined(levels, i, n);
    }
  }

  /** A level leaves every tensor alone that is not its nodes' output. */
  lemma {:induction false} InterleaveKeeps(p: Provider, level: seq<Node>, store: Env, moves: seq<Move>)
    ensures var after := Interleave(p, level, store, moves).store;
            && store.Keys <= after.Keys <= store.Keys + OutNames(level)
            && forall x <- store | x !in OutNames(level) :: after[x] == store[x]
  {
    if moves != [] {
      InterleaveKeeps(p, level, store, moves[..|moves| - 1]);
    }
  }

  /** A completed parallel run leaves the store of the sequential run. */
  lemma ParallelRun(p: Provider, q: Program, x: string, input: Tensor, order: seq<Node>, levels: seq<seq<Node>>,
                    store: Env, schedules: seq<seq<Move>>)
    requires Scheduled(q.nodes, Given(q.inits, x, EMPTY), order, levels) && x in store && store[x] == input
    requires |schedules| == |levels| && forall y <- q.inits :: y in store && y != x && store[y] == q.inits[y]
    requires Wavefront(p, levels, store, schedules).Some?
    ensures Wavefront(p, levels, store, schedules) == Execute(p, order, store)
  {
    SameRun(p, q, x, input, order, levels, store);
    WavefrontIsSequential(p, levels, store, schedules);
  }

  /** When the sequential run succeeds so can the parallel one, however its levels begin. */
  lemma ParallelCanSucceed(p: Provider, q: Program, x: string, input: Tensor, order: seq<Node>, levels: seq<seq<Node>>,
                           store: Env, begun: seq<seq<Move>>) returns (schedules: seq<seq<Move>>)
    requires Scheduled(q.nodes, Given(q.inits, x, EMPTY), order, levels) && x in store && store[x] == input
    requires |begun| == |levels| && forall y <- q.inits :: y in store && y != x && store[y] == q.inits[y]
    requires Execute(p, order, store).Some?
    ensures |schedules| == |levels| && forall k | 0 <= k < |levels| :: begun[k] <= schedules[k]
    ensures Wavefront(p, levels, store, schedules) == Execute(p, order, store)
  {
    SameRun(p, q, x, input, order, levels, store);
    schedules := WavefrontCanFinish(p, levels, store, begun);
  }

  // ----- preparing a session -----

  /** What loading a model checks, apart from well-formedness. */
  ghost predicate Loadable(p: Provider, q: Program) {
    && q.inputs != [] && q.outputs != [] && Acyclic(q.nodes)
    && (forall n <- q.nodes :: p.supports(n.Op())) && SingleOutputs(q.nodes)
    && q.outputs[0] in Slots(q, q.inputs[0])
    && forall n <- q.nodes, x <- n.inputs :: x in Slots(q, q.inputs[0])
  }

  predicate SingleOutputs(nodes: seq<Node>) {
    forall n <- nodes :: |n.outputs| == 1
  }

  lemma CycleRefutesRank(e: Entries, order: seq<string>, q: Program, cycle: seq<string>)
    requires Shows(e, order, q) && Cycle(e, cycle)
    ensures !Acyclic(q.nodes)
  {
    if Acyclic(q.nodes) {
      var rank :| Ranked(q.nodes, rank);
      EveryNode(e, order, q);
      RankedPath(e, rank, cycle, 0, |cycle| - 1);
      assert false;
    }
  }

  lemma EveryNode(e: Entries, order: seq<string>, q: Program)
    requires Shows(e, order, q)
    ensures forall x <- e :: e[x].node in q.nodes && e[x].node.name == x
    ensures forall n <- q.nodes :: n.name in e && e[n.name].node == n
  {
    forall x | x in e ensures e[x].node in q.nodes {
      assert x in order;
      NodeNamed(e, order, e[x].node);
    }
    forall n | n in q.nodes ensures n.name in e && e[n.name].node == n {
      NodeNamed(e, order, n);
    }
  }

  /** A topological order ranks every producer below its readers. */
  lemma OrderRanks(e: Entries, order: seq<string>, q: Program, sorted: seq<string>)
    requires Shows(e, order, q) && TopOrder(e, sorted)
    ensures Acyclic(q.nodes)
  {
    EveryNode(e, order, q);
    assert forall x :: x in sorted <==> x in (set y <- sorted);
    var rank := map x <- e :: Position(sorted, x);
    forall m, n | m in q.nodes && n in q.nodes && m != n && m.Out() in n.inputs ensures rank[m.name] < rank[n.name] {
      assert m.name != n.name;
      EdgeRises(e, sorted, m.name, n.name);
    }
    assert Ranked(q.nodes, rank);
  }

  lemma EdgeRises(e: Entries, sorted: seq<string>, x: string, y: string)
    requires EdgesRight(e) && Named(e) && TopOrder(e, sorted) && x in e && y in e && x != y && x in sorted &&
             y in sorted
    requires |e[x].node.outputs| == 1 && e[x].node.Out() in e[y].node.inputs
    ensures Position(sorted, x) < Position(sorted, y)
  {
    assert e[x].node.Out() in e[x].node.outputs;
    ChildReads(e, x, y);
    var i, j := Position(sorted, x), Position(sorted, y);
    assert Edge(e, sorted[i], sorted[j]);
  }

  method SupportsAll(order: seq<Node>, p: Provider) returns (all: bool)
    ensures all <==> forall n <- order :: p.supports(n.Op())
  {
    for i := 0 to |order|
      invariant forall j | 0 <= j < i :: p.supports(order[j].Op())
    {
      if !p.supports(order[i].Op()) {
        assert order[i] in order;
        return false;
      }
    }
    return true;
  }

  method OneOutputEach(order: seq<Node>) returns (all: bool)
    ensures all <==> SingleOutputs(order)
  {
    for i := 0 to |order|
      invariant forall j | 0 <= j < i :: |order[j].outputs| == 1
    {
      if |order[i].outputs| != 1 {
        assert order[i] in order;
        return false;
      }
    }
    return true;
  }

  method ReadsKnown(order: seq<Node>, tensors: Env) returns (all: bool)
    ensures all <==> forall n <- order, x <- n.inputs :: x in tensors
  {
    for i := 0 to |order|
      invariant forall j, x | 0 <= j < i && x in order[j].inputs :: x in tensors
    {
      if exists x <- order[i].inputs :: x !in tensors {
        assert order[i] in order;
        return false;
      }
    }
    return true;
  }

  /** One slot for every initializer, for the input and for every node's output. */
  method MakeStore(inits: Env, inputName: string, order: seq<Node>) returns (tensors: Env)
    ensures tensors.Keys == inits.Keys + {inputName} + OutNames(order)
    ensures forall x <- tensors :: tensors[x] == if x in inits then inits[x] else EMPTY
  {
    tensors := inits;
    if inputName !in tensors {
      tensors := tensors[inputName := EMPTY];
    }
    for i := 0 to |order|
      invariant tensors.Keys == inits.Keys + {inputName} + OutNames(order[..i])
      invariant forall x <- tensors :: tensors[x] == if x in inits then inits[x] else EMPTY
    {
      OutNamesSnoc(order[..i + 1]);
      assert order[..i + 1][..i] == order[..i];
      if order[i].Out() !in tensors {
        tensors := tensors[order[i].Out() := EMPTY];
      }
    }
    assert order[..|order|] == order;
  }

  lemma PreparedNodes(e: Entries, order: seq<string>, q: Program, first: seq<string>)
    requires (forall x :: x in order <==> x in e) && q.nodes == NodesOf(e, order) && TopOrder(e, first)
    ensures (forall x <- first :: x in e) && SameItems(q.nodes, NodesOf(e, first))
    ensures OutNames(NodesOf(e, first)) == OutNames(q.nodes)
  {
    assert forall x :: x in first <==> x in (set y <- first);
    SameMembers(e, order, first);
  }

  /** The initializers, and an empty tensor for everything else. */
  function FirstStore(q: Program): Env
    requires q.inputs != []
  {
    map x <- Slots(q, q.inputs[0]) :: if x in q.inits then q.inits[x] else EMPTY
  }

  /**
   * Prepares a session; succeeds exactly for a loadable model. A node with no output or several is refused here; of
   * the other things that make a model well formed nothing is checked.
   */
  method Prepare(m: Model, p: Provider) returns (r: Result<Session>)
    requires m.Valid() && (SingleOutputs(m.View().nodes) ==> Formed(m.View()))
    ensures r.Ok? <==> Loadable(p, m.View())
    ensures r.Ok? ==> fresh(r.value) && Prepares(r.value, p, m.View())
  {
    hide EdgesRight, Formed, Acyclic, TopOrder, Cycle, Prepares;
    ghost var q := m.View();
    if m.graph.inputs == [] || m.graph.outputs == [] {
      return Err("Model graph declares no inputs or no outputs");
    }
    EdgesClosed(m.graph.entries);
    var sorted, cycle := m.graph.TopologicalSort();
    if sorted.Err? {
      if SingleOutputs(q.nodes) {
        assert Shows(m.graph.entries, m.graph.order, q);
        CycleRefutesRank(m.graph.entries, m.graph.order, q, cycle);
      }
      return Err(sorted.message);
    }
    r := PrepareSorted(m, p, sorted.value);
  }

  /** The rest, once the nodes have been sorted. */
  method PrepareSorted(m: Model, p: Provider, sorted: seq<string>) returns (r: Result<Session>)
    requires m.Valid() && (SingleOutputs(m.View().nodes) ==> Formed(m.View()))
    requires m.View().inputs != [] && m.View().outputs != [] && TopOrder(m.graph.entries, sorted)
    requires !exists path :: Cycle(m.graph.entries, path)
    ensures r.Ok? <==> Loadable(p, m.View())
    ensures r.Ok? ==> fresh(r.value) && Prepares(r.value, p, m.View())
  {
    hide EdgesRight, WellFormed, Formed, Acyclic, TopOrder, Cycle, Levelled, InLevels, Scheduled, Runnable;
    ghost var q := m.View();
    var inputName, outputName := m.graph.inputs[0], m.graph.outputs[0];
    PreparedNodes(m.graph.entries, m.graph.order, q, sorted);
    var levels, again, level := m.graph.ExecutionLevels();
    var e := m.graph.entries;
    assert levels.Ok? && Levels(e, again, level, levels.value);
    var order := seq(|sorted|, i requires 0 <= i < |sorted| && sorted[i] in e => e[sorted[i]].node);
    assert order == NodesOf(e, sorted);
    var supported := SupportsAll(order, p);
    if !supported {
      return Err("unsupported operator");
    }
    var single := OneOutputEach(order);
    if !single {
      return Err("a node must produce exactly one output");
    }
    assert Shows(e, m.graph.order, q);
    OrderRanks(e, m.graph.order, q, sorted);
    var tensors := MakeStore(m.inits, inputName, order);
    assert tensors == FirstStore(q);
    if outputName !in tensors {
      return Err("graph output is not produced by any node");
    }
    var known := ReadsKnown(order, tensors);
    if !known {
      return Err("a node reads an unknown tensor");
    }
    GraphPrepared(e, m.graph.order, q, sorted, again, level, levels.value);
    var session := new Session(p, order, LevelNodes(e, levels.value), inputName, outputName, tensors, q);
    return Ok(session);
  }

  /** The session runs the program, from its first store on. */
  ghost predicate Prepares(session: Session, p: Provider, q: Program)
    reads session
  {
    && session.Ready() && (WellFormed(q) ==> session.Valid()) && session.provider == p && session.program == q
    && q.inputs != [] && session.inputName == q.inputs[0] && session.tensors == FirstStore(q)
    && q.outputs != [] && session.outputName == q.outputs[0]
  }

  lemma GraphPrepared(e: Entries, order: seq<string>, q: Program, first: seq<string>, sorted: seq<string>,
                      level: map<string, nat>, levels: seq<seq<string>>)
    requires Shows(e, order, q) && TopOrder(e, first) && Levels(e, sorted, level, levels) && q.inputs != []
    requires forall n <- q.nodes, x <- n.inputs :: x in Slots(q, q.inputs[0])
    ensures (forall x <- first :: x in e) && forall l <- levels, x <- l :: x in e
    ensures Runnable(q, q.inputs[0], NodesOf(e, first), LevelNodes(e, levels)) && q.inputs[0] !in q.inits
    ensures WellFormed(q) ==>
              Scheduled(q.nodes, Given(q.inits, q.inputs[0], EMPTY), NodesOf(e, first), LevelNodes(e, levels))
  {
    InputIsNoInitializer(q);
    GraphRunnable(e, order, q, first, sorted, level, levels, q.inputs[0]);
    if WellFormed(q) {
      SlotsKnown(q, q.inputs[0]);
      GraphSchedules(e, order, q, first, sorted, level, levels, Given(q.inits, q.inputs[0], EMPTY));
    }
  }

  lemma InputIsNoInitializer(q: Program)
    requires Formed(q) && q.inputs != []
    ensures q.inputs[0] !in q.inits
  {
  }

  lemma SlotsKnown(q: Program, inputName: string)
    requires WellFormed(q) && inputName in q.inputs
    requires forall n <- q.nodes, x <- n.inputs :: x in Slots(q, inputName)
    ensures Known(q.nodes, Given(q.inits, inputName, EMPTY)) && inputName !in q.inits
    ensures forall n <- q.nodes :: n.Out() !in Given(q.inits, inputName, EMPTY)
  {
    forall n, x | n in q.nodes && x in n.inputs
      ensures x in Given(q.inits, inputName, EMPTY) || x in OutNames(q.nodes)
    {
      assert x in Slots(q, inputName);
    }
  }

  // ----- what a session computes -----

  /**
   * Loading, optimizing and running a model with one input gives the value the unoptimized model has:
   * the session's result is the original model's first output.
   */
  lemma SessionComputesModel(p: Provider, original: Program, q: Program, order: seq<Node>, levels: seq<seq<Node>>,
                             input: Tensor, env: Env)
    requires Refines(p, original, q) && |original.inputs| == 1 && original.outputs != []
    requires Evaluates(p, original, map[original.inputs[0] := input], env)
    requires Scheduled(q.nodes, Given(q.inits, q.inputs[0], EMPTY), order, levels) &&
             q.outputs[0] in Slots(q, q.inputs[0])
    ensures Execute(p, order, Given(q.inits, q.inputs[0], input)) == Some(Restrict(env, Names(q)))
    ensures q.outputs[0] in env && Restrict(env, Names(q))[q.outputs[0]] == env[q.outputs[0]]
  {
    hide Ordered, OutputsApart, Known, Independent, Fire, WellFormed, Acyclic;
    var x := q.inputs[0];
    var xs := map[x := input];
    var given := Given(q.inits, x, input);
    SameSchedule(q, x, EMPTY, input, order, levels);
    var after := Restrict(env, Names(q));
    assert Evaluates(p, q, xs, after);
    assert q.inits + xs == given;
    assert after.Keys == Slots(q, x) && Solves(p, q.nodes, given, after);
    hide Refines, Evaluates, Execute, Solves, Names;
    SolvesSame(p, q.nodes, order, given, after);
    SolutionIsExecution(p, order, given, after);
  }

  lemma SolvesSame(p: Provider, a: seq<Node>, b: seq<Node>, given: Env, env: Env)
    requires Solves(p, a, given, env) && SameItems(a, b)
    ensures Solves(p, b, given, env)
  {
    assert OutNames(a) == OutNames(b);
  }

  /** The model a session is prepared for; nothing when optimizing fails. */
  function Opened(p: Provider, q: Program, optimizing: bool, options: Options): Option<Program> {
    if optimizing then Optimize(p, q, options) else Some(q)
  }

  lemma OpenedFormed(p: Provider, q: Program, optimizing: bool, options: Options)
    requires WellFormed(q) && Opened(p, q, optimizing, options).Some?
    ensures Formed(Opened(p, q, optimizing, options).value)
    ensures Acyclic(q.nodes) && Fuses(p) ==>
              && Refines(p, q, Opened(p, q, optimizing, options).value)
              && WellFormed(Opened(p, q, optimizing, options).value)
  {
    WellFormedIsFormed(q);
    hide Optimize;
    if optimizing {
      OptimizedAcyclic(p, q, options);
    }
    if Acyclic(q.nodes) && Fuses(p) {
      if optimizing { OptimizeRefines(p, q, options); } else { RefinesSelf(p, q); }
      RefinesWellFormed(p, q, Opened(p, q, optimizing, options).value);
    }
  }

  /**
   * Optimizes a model, if asked to, and prepares a session for what comes out. This succeeds exactly when optimizing
   * does and leaves a loadable model.
   */
  method Open(m: Model, p: Provider, optimizing: bool, options: Options) returns (r: Result<Session>)
    requires m.Valid() && WellFormed(m.View())
    modifies m, m.graph
    ensures r.Ok? <==> match Opened(p, old(m.View()), optimizing, options)
                       case None => false
                       case Some(after) => Loadable(p, after)
    ensures r.Ok? ==> fresh(r.value) && Prepares(r.value, p, Opened(p, old(m.View()), optimizing, options).value)
  {
    hide WellFormed, Acyclic, EdgesRight, Optimize, Loadable, Formed, Prepares;
    ghost var q := m.View();
    WellFormedIsFormed(q);
    if m.graph.inputs == [] || m.graph.outputs == [] {
      if Opened(p, q, optimizing, options).Some? {
        NoInterface(p, q, optimizing, options);
      }
      return Err("Model graph declares no inputs or no outputs");
    }
    if optimizing {
      var report := Optimizer.Run(m, p, options);
      if report.Err? {
        return Err(report.message);
      }
    }
    OpenedFormed(p, q, optimizing, options);
    r := Prepare(m, p);
  }

  /** Rewriting does not supply a model with inputs or outputs. */
  lemma NoInterface(p: Provider, q: Program, optimizing: bool, options: Options)
    requires (q.inputs == [] || q.outputs == []) && Opened(p, q, optimizing, options).Some?
    ensures !Loadable(p, Opened(p, q, optimizing, options).value)
  {
    if optimizing {
      OptimizedFrame(p, q, options);
    }
  }

  /**
   * Optimizing lets this cyclic model through, and no run of it gets past its only node when the fused operator
   * fails on an empty operand.
   */
  lemma HiddenCycleOpens(p: Provider, w: Tensor, options: Options)
    requires options.fuseActivations && p.supports(GemmRelu)
    ensures !Loadable(p, FedBack(w))
    ensures var r := Opened(p, FedBack(w), true, options);
            && r.Some? && Loadable(p, r.value) && r.value.nodes == [SELF] && FirstStore(r.value)["y"] == EMPTY
    ensures p.compute(GemmRelu, map[], [EMPTY, w]) == None ==>
              forall store: Env | "y" in store && "w" in store && store["y"] == EMPTY && store["w"] == w ::
                Fire(p, SELF, store) == None
  {
    FusingHidesCycle(p, w, options);
    var r := FedBack(w).(nodes := [SELF]);
    assert SELF in r.nodes;
    assert OutNames(r.nodes) == {"y"};
    assert SELF.Op() == GemmRelu;
    forall store: Env | "y" in store && "w" in store && store["y"] == EMPTY && store["w"] == w
      ensures Fire(p, SELF, store) == p.compute(GemmRelu, map[], [EMPTY, w])
    {
      assert seq(|SELF.inputs|, i requires 0 <= i < |SELF.inputs| => store[SELF.inputs[i]]) == [EMPTY, w];
    }
  }

  /** The provider supports the model's operators, and the fused one if it may come up. */
  predicate Supported(p: Provider, q: Program, fusing: bool) {
    (forall n <- q.nodes :: p.supports(n.Op())) && (fusing ==> p.supports(GemmRelu))
  }

  /** A model with a value on its one input can be loaded, optimized or not. */
  lemma ValuedIsLoadable(p: Provider, q: Program, x: Tensor, env: Env, optimizing: bool, options: Options)
    requires WellFormed(q) && Acyclic(q.nodes) && Fuses(p) && Supported(p, q, optimizing)
    requires |q.inputs| == 1 && q.outputs != [] && q.outputs[0] in Names(q)
    requires Evaluates(p, q, map[q.inputs[0] := x], env)
    ensures Opened(p, q, optimizing, options).Some? && Loadable(p, Opened(p, q, optimizing, options).value)
  {
    hide WellFormed, Acyclic, Fuses, Evaluates, Refines, Loadable, Optimize;
    if optimizing {
      OptimizeSucceeds(p, q, options, map[q.inputs[0] := x], env);
      OptimizedFrame(p, q, options);
    }
    var after := Opened(p, q, optimizing, options).value;
    OpenedFormed(p, q, optimizing, options);
    forall n | n in after.nodes ensures p.supports(n.Op()) {
      assert n.Op() in Ops(after.nodes);
    }
    RefinedLoadable(p, q, after, x, env);
  }

  lemma ValueReads(p: Provider, q: Program, xs: Env, env: Env)
    requires Evaluates(p, q, xs, env)
    ensures env.Keys == q.inits.Keys + xs.Keys + OutNames(q.nodes)
    ensures forall n <- q.nodes, x <- n.inputs :: x in env
  {
  }

  lemma RefinedLoadable(p: Provider, a: Program, b: Program, x: Tensor, env: Env)
    requires Refines(p, a, b) && |a.inputs| == 1 && a.outputs != [] && a.outputs[0] in Names(a)
    requires Evaluates(p, a, map[a.inputs[0] := x], env) && forall n <- b.nodes :: p.supports(n.Op())
    ensures Loadable(p, b)
  {
    var xs := map[a.inputs[0] := x];
    var after := Restrict(env, Names(b));
    assert WellFormed(b) && Acyclic(b.nodes) && b.inputs == a.inputs && b.outputs == a.outputs;
    assert b.outputs[0] in Names(b) && Evaluates(p, b, xs, after);
    assert SingleOutputs(b.nodes);
    hide Refines, WellFormed, Acyclic, Evaluates, Restrict;
    ValueReads(p, b, xs, after);
    assert (set y <- b.inputs) == {b.inputs[0]};
    assert Slots(b, b.inputs[0]) == after.Keys == Names(b);
  }

  /**
   * Opening a model and running it once. An acyclic model with one input, whose operators are supported, gives the
   * value the model as loaded has for its first output, whenever it has one.
   */
  method Infer(m: Model, p: Provider, optimizing: bool, options: Options, input: Tensor) returns (r: Result<Tensor>)
    requires m.Valid() && WellFormed(m.View())
    modifies m, m.graph
    ensures var q := old(m.View());
            Acyclic(q.nodes) && Fuses(p) && |q.inputs| == 1 ==>
              forall env: Env | Evaluates(p, q, map[q.inputs[0] := input], env) ::
                && (r.Ok? ==> q.outputs != [] && q.outputs[0] in env && r.value == env[q.outputs[0]])
                && (input.data != [] && q.outputs != [] && q.outputs[0] in Names(q) && Supported(p, q, optimizing) ==>
                      r.Ok?)
  {
    hide WellFormed, Acyclic, Fuses, EdgesRight, Evaluates, Scheduled, Execute, Loadable, Runnable, Opened, Names;
    ghost var q := m.View();
    if Acyclic(q.nodes) && Fuses(p) && |q.inputs| == 1
       && q.outputs != [] && q.outputs[0] in Names(q) && Supported(p, q, optimizing)
    {
      forall env: Env | Evaluates(p, q, map[q.inputs[0] := input], env)
        ensures Opened(p, q, optimizing, options).Some? && Loadable(p, Opened(p, q, optimizing, options).value)
      {
        ValuedIsLoadable(p, q, input, env, optimizing, options);
      }
    }
    var s := Open(m, p, optimizing, options);
    if s.Err? {
      return Err(s.message);
    }
    var session := s.value;
    OpenedFormed(p, q, optimizing, options);
    r := session.Run(input);
    if Acyclic(q.nodes) && Fuses(p) && |q.inputs| == 1 {
      forall env: Env | Evaluates(p, q, map[q.inputs[0] := input], env)
        ensures q.outputs != [] && q.outputs[0] in env
        ensures (r.Ok? ==> r.value == env[q.outputs[0]]) && (input.data != [] ==> r.Ok?)
      {
        SessionComputesModel(p, q, session.program, session.order, session.levels, input, env);
      }
    }
  }
}
