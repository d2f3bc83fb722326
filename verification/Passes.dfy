/** The optimizer's passes: each rewrite applied to the first place it fits until it fits nowhere. */
module Passes {
  import opened Base
  import opened Programs
  import opened Rewrites

  /** The first item satisfying `f`. */
  function FirstIndex<T>(s: seq<T>, f: T -> bool): (r: Option<nat>)
    ensures r.Some? ==> r.value < |s| && f(s[r.value]) && forall j | 0 <= j < r.value :: !f(s[j])
    ensures r.None? ==> forall x <- s :: !f(x)
  {
    if s == [] then None
    else if f(s[0]) then Some(0)
    else match FirstIndex(s[1..], f)
      case None => None
      case Some(i) => Some(i + 1)
  }

  lemma {:induction false} FirstIndexIs<T>(s: seq<T>, f: T -> bool, i: nat)
    requires i < |s| && f(s[i]) && forall j | 0 <= j < i :: !f(s[j])
    ensures FirstIndex(s, f) == Some(i)
  {
    if i > 0 {
      FirstIndexIs(s[1..], f, i - 1);
    }
  }

  // ----- constant folding -----

  function FirstConstant(p: Provider, q: Program): (r: Option<nat>)
    ensures r.Some? ==> r.value < |q.nodes| && Constant(p, q, q.nodes[r.value])
    ensures r.None? ==> forall n <- q.nodes :: !Constant(p, q, n)
  {
    FirstIndex(q.nodes, n => Constant(p, q, n))
  }

  /** Nothing when a computation fails. */
  function FoldAll(p: Provider, q: Program): Option<Program>
    decreases |q.nodes|
  {
    match FirstConstant(p, q)
    case None => Some(q)
    case Some(i) =>
      match Fire(p, q.nodes[i], q.inits)
      case None => None
      case Some(v) => FoldAll(p, FoldNode(q, i, v))
  }

  /** A folded program can stand in for the original, and has no constant node left. */
  lemma {:induction false} FoldAllRefines(p: Provider, q: Program)
    requires WellFormed(q) && Acyclic(q.nodes) && FoldAll(p, q).Some?
    ensures var r := FoldAll(p, q).value;
            Refines(p, q, r) && |r.nodes| <= |q.nodes| && forall n <- r.nodes :: !Constant(p, r, n)
    decreases |q.nodes|
  {
    match FirstConstant(p, q)
    case None => RefinesSelf(p, q);
    case Some(i) =>
      hide Refines;
      var v := Fire(p, q.nodes[i], q.inits).value;
      var next := FoldNode(q, i, v);
      FoldRefines(p, q, i, v);
      RefinesWellFormed(p, q, next);
      FoldAllRefines(p, next);
      RefinesTransitive(p, q, next, FoldAll(p, next).value);
  }

  lemma RefinesWellFormed(p: Provider, a: Program, b: Program)
    requires Refines(p, a, b)
    ensures WellFormed(b) && Acyclic(b.nodes)
  {
  }

  /** Folding fails only for a model that has no value on any input. */
  lemma {:induction false} FoldAllSucceeds(p: Provider, q: Program, xs: Env, env: Env)
    requires WellFormed(q) && Evaluates(p, q, xs, env)
    ensures FoldAll(p, q).Some?
    decreases |q.nodes|
  {
    if FirstConstant(p, q).Some? {
      var i := FirstConstant(p, q).value;
      var n := q.nodes[i];
      assert n in q.nodes;
      FireDepends(p, n, q.inits, env);
      FoldEvaluates(p, q, i, env[n.Out()], xs, env);
      FoldWellFormed(q, i, env[n.Out()]);
      FoldAllSucceeds(p, FoldNode(q, i, env[n.Out()]), xs, env);
    }
  }

  lemma FoldWellFormed(q: Program, i: nat, v: Tensor)
    requires WellFormed(q) && i < |q.nodes|
    ensures WellFormed(FoldNode(q, i, v))
  {
    RemovedNodes(q.nodes, i);
    assert q.nodes[i] in q.nodes;
  }

  // ----- activation fusion -----

  function FirstPartner(q: Program, i: nat, j: nat): (r: Option<nat>)
    requires j <= |q.nodes|
    ensures r.Some? ==> Fusible(q, i, r.value)
    ensures r.None? ==> forall k | j <= k < |q.nodes| :: !Fusible(q, i, k)
    decreases |q.nodes| - j
  {
    if j == |q.nodes| then None else if Fusible(q, i, j) then Some(j) else FirstPartner(q, i, j + 1)
  }

  function FirstFusible(q: Program, i: nat): (r: Option<(nat, nat)>)
    requires i <= |q.nodes|
    ensures r.Some? ==> Fusible(q, r.value.0, r.value.1)
    ensures r.None? ==> forall k, j | i <= k < |q.nodes| && 0 <= j < |q.nodes| :: !Fusible(q, k, j)
    decreases |q.nodes| - i
  {
    if i == |q.nodes| then None else
    match FirstPartner(q, i, 0)
    case Some(j) => Some((i, j))
    case None => FirstFusible(q, i + 1)
  }

  function FuseAll(q: Program): Program
    decreases |q.nodes|
  {
    match FirstFusible(q, 0)
    case None => q
    case Some((i, j)) => FuseAll(FuseNodes(q, i, j))
  }

  lemma {:induction false} FuseAllRefines(p: Provider, q: Program)
    requires WellFormed(q) && Acyclic(q.nodes) && Fuses(p)
    ensures Refines(p, q, FuseAll(q)) && |FuseAll(q).nodes| <= |q.nodes| && FirstFusible(FuseAll(q), 0) == None
    decreases |q.nodes|
  {
    match FirstFusible(q, 0)
    case None => RefinesSelf(p, q);
    case Some((i, j)) =>
      hide Refines;
      var next := FuseNodes(q, i, j);
      FuseRefines(p, q, i, j);
      RefinesWellFormed(p, q, next);
      FuseAllRefines(p, next);
      RefinesTransitive(p, q, next, FuseAll(next));
  }

  lemma {:induction false} FuseAllWellFormed(q: Program)
    requires WellFormed(q) && Acyclic(q.nodes)
    ensures WellFormed(FuseAll(q)) && Acyclic(FuseAll(q).nodes)
    decreases |q.nodes|
  {
    if FirstFusible(q, 0).Some? {
      var (i, j) := FirstFusible(q, 0).value;
      FusedWellFormed(q, i, j);
      FuseAllWellFormed(FuseNodes(q, i, j));
    }
  }

  // ----- dead node elimination -----

  function FirstDead(q: Program): (r: Option<nat>)
    ensures r.Some? ==> r.value < |q.nodes| && Dead(q, q.nodes[r.value])
    ensures r.None? ==> forall n <- q.nodes :: !Dead(q, n)
  {
    FirstIndex(q.nodes, n => Dead(q, n))
  }

  function DropAll(q: Program): Program
    decreases |q.nodes|
  {
    match FirstDead(q)
    case None => q
    case Some(i) => DropAll(DropNode(q, i))
  }

  lemma {:induction false} DropAllRefines(p: Provider, q: Program)
    requires WellFormed(q) && Acyclic(q.nodes)
    ensures Refines(p, q, DropAll(q)) && |DropAll(q).nodes| <= |q.nodes| && FirstDead(DropAll(q)) == None
    decreases |q.nodes|
  {
    match FirstDead(q)
    case None => RefinesSelf(p, q);
    case Some(i) =>
      hide Refines;
      var next := DropNode(q, i);
      DropRefines(p, q, i);
      RefinesWellFormed(p, q, next);
      DropAllRefines(p, next);
      RefinesTransitive(p, q, next, DropAll(next));
  }

  /** A chain of nodes, each read by the next, ending in a graph output. */
  predicate Feeds(q: Program, path: seq<Node>) {
    && path != [] && path[|path| - 1].Out() in q.outputs
    && (forall n <- path :: n in q.nodes)
    && forall k | 0 <= k < |path| - 1 :: path[k].Out() in path[k + 1].inputs
  }

  /** Some graph output depends on the node. */
  ghost predicate Live(q: Program, n: Node) {
    exists path: seq<Node> :: Feeds(q, path) && path[0] == n
  }

  lemma DropKeepsLive(q: Program, i: nat, n: Node)
    requires WellFormed(q) && i < |q.nodes| && Dead(q, q.nodes[i])
    ensures Live(DropNode(q, i), n) <==> Live(q, n)
  {
    RemovedNodes(q.nodes, i);
    if Live(q, n) {
      var path: seq<Node> :| Feeds(q, path) && path[0] == n;
      forall k | 0 <= k < |path| ensures path[k] != q.nodes[i] {
        assert path[k] in path && path[k].Out() in path[k].outputs;
        if k < |path| - 1 {
          assert path[k + 1] in path;
        }
      }
      assert Feeds(DropNode(q, i), path);
    }
    if Live(DropNode(q, i), n) {
      var path: seq<Node> :| Feeds(DropNode(q, i), path) && path[0] == n;
      assert Feeds(q, path);
    }
  }

  function MaxRank(nodes: seq<Node>, rank: map<string, nat>): (b: nat)
    requires forall n <- nodes :: n.name in rank
    ensures forall n <- nodes :: rank[n.name] <= b
  {
    if nodes == [] then 0 else
    var b := MaxRank(nodes[1..], rank);
    assert forall n <- nodes :: n == nodes[0] || n in nodes[1..];
    if rank[nodes[0].name] > b then rank[nodes[0].name] else b
  }

  lemma {:induction false} UndeadIsLive(q: Program, rank: map<string, nat>, bound: nat, n: Node)
    requires WellFormed(q) && Ranked(q.nodes, rank) && n in q.nodes && forall m <- q.nodes :: !Dead(q, m)
    requires forall m <- q.nodes :: rank[m.name] <= bound
    ensures Live(q, n)
    decreases bound - rank[n.name]
  {
    assert n.Out() in Consumed(q);
    if n.Out() in q.outputs {
      assert Feeds(q, [n]);
    } else {
      var m :| m in q.nodes && n.Out() in m.inputs;
      UndeadIsLive(q, rank, bound, m);
      var path: seq<Node> :| Feeds(q, path) && path[0] == m;
      FeedsLonger(q, n, path);
    }
  }

  lemma FeedsLonger(q: Program, n: Node, path: seq<Node>)
    requires Feeds(q, path) && n in q.nodes && n.Out() in path[0].inputs
    ensures Live(q, n)
  {
    var longer := [n] + path;
    forall k | 0 <= k < |longer| - 1 ensures longer[k].Out() in longer[k + 1].inputs {
      assert k > 0 ==> longer[k] == path[k - 1];
    }
    assert Feeds(q, longer) && longer[0] == n;
  }

  /** Elimination keeps exactly the nodes some graph output depends on, whatever order the nodes were added in. */
  lemma {:induction false} DropAllKeepsLive(q: Program, n: Node)
    requires WellFormed(q) && Acyclic(q.nodes)
    ensures n in DropAll(q).nodes <==> Live(q, n)
    decreases |q.nodes|
  {
    match FirstDead(q)
    case None =>
      if n in q.nodes {
        var rank :| Ranked(q.nodes, rank);
        UndeadIsLive(q, rank, MaxRank(q.nodes, rank), n);
      }
      if Live(q, n) {
        var path: seq<Node> :| Feeds(q, path) && path[0] == n;
        assert n in path;
      }
    case Some(i) =>
      DropKeepsLive(q, i, n);
      RemovedNodes(q.nodes, i);
      RemovedAcyclic(q.nodes, i);
      DropAllKeepsLive(DropNode(q, i), n);
  }

  // ----- the whole optimizer -----

  datatype Options = Options(foldConstants: bool, fuseActivations: bool, eliminateDeadNodes: bool)

  function FoldIf(p: Provider, q: Program, o: Options): Option<Program> {
    if o.foldConstants then FoldAll(p, q) else Some(q)
  }

  function FuseIf(q: Program, o: Options): Program {
    if o.fuseActivations then FuseAll(q) else q
  }

  function DropIf(q: Program, o: Options): Program {
    if o.eliminateDeadNodes then DropAll(q) else q
  }

  function Optimize(p: Provider, q: Program, o: Options): Option<Program> {
    match FoldIf(p, q, o)
    case None => None
    case Some(folded) => Some(DropIf(FuseIf(folded, o), o))
  }

  /** The optimized model computes the same value for every graph output. */
  lemma OptimizeRefines(p: Provider, q: Program, o: Options)
    requires WellFormed(q) && Acyclic(q.nodes) && Fuses(p) && Optimize(p, q, o).Some?
    ensures Refines(p, q, Optimize(p, q, o).value)
  {
    var folded := FoldIf(p, q, o).value;
    if o.foldConstants { FoldAllRefines(p, q); } else { RefinesSelf(p, q); }
    RefinesWellFormed(p, q, folded);
    hide Refines;
    var fused := FuseIf(folded, o);
    if o.fuseActivations { FuseAllRefines(p, folded); } else { RefinesSelf(p, folded); }
    RefinesWellFormed(p, folded, fused);
    if o.eliminateDeadNodes { DropAllRefines(p, fused); } else { RefinesSelf(p, fused); }
    RefinesTransitive(p, q, folded, fused);
    RefinesTransitive(p, q, fused, DropIf(fused, o));
  }

  /** Optimizing fails only for a model that has no value on any input. */
  lemma OptimizeSucceeds(p: Provider, q: Program, o: Options, xs: Env, env: Env)
    requires WellFormed(q) && Evaluates(p, q, xs, env)
    ensures Optimize(p, q, o).Some?
  {
    FoldAllSucceeds(p, q, xs, env);
  }

  // ----- what the optimizer leaves alone -----

  function Ops(nodes: seq<Node>): set<OpType> {
    set n <- nodes :: n.Op()
  }

  /** The same interface, and no operator but those there were and the fused one. */
  predicate SameFrame(q: Program, r: Program) {
    r.inputs == q.inputs && r.outputs == q.outputs && Ops(r.nodes) <= Ops(q.nodes) + {GemmRelu}
  }

  lemma RemovedOps(nodes: seq<Node>, i: nat)
    requires i < |nodes|
    ensures Ops(RemoveAt(nodes, i)) <= Ops(nodes)
  {
    forall n | n in RemoveAt(nodes, i) ensures n in nodes {
      InRemoved(nodes, i, n);
    }
  }

  lemma {:induction false} FoldAllFrame(p: Provider, q: Program)
    requires FoldAll(p, q).Some?
    ensures SameFrame(q, FoldAll(p, q).value)
    decreases |q.nodes|
  {
    if FirstConstant(p, q).Some? {
      var i := FirstConstant(p, q).value;
      RemovedOps(q.nodes, i);
      FoldAllFrame(p, FoldNode(q, i, Fire(p, q.nodes[i], q.inits).value));
    }
  }

  lemma {:induction false} FuseAllFrame(q: Program)
    ensures SameFrame(q, FuseAll(q))
    decreases |q.nodes|
  {
    if FirstFusible(q, 0).Some? {
      var (i, j) := FirstFusible(q, 0).value;
      var fused := q.nodes[j := Fused(q.nodes[j], q.nodes[i])];
      assert forall n <- fused :: n in q.nodes || n.Op() == GemmRelu;
      RemovedOps(fused, i);
      FuseAllFrame(FuseNodes(q, i, j));
    }
  }

  lemma {:induction false} DropAllFrame(q: Program)
    ensures SameFrame(q, DropAll(q))
    decreases |q.nodes|
  {
    if FirstDead(q).Some? {
      RemovedOps(q.nodes, FirstDead(q).value);
      DropAllFrame(DropNode(q, FirstDead(q).value));
    }
  }

  lemma OptimizedFrame(p: Provider, q: Program, o: Options)
    requires Optimize(p, q, o).Some?
    ensures SameFrame(q, Optimize(p, q, o).value)
  {
    if o.foldConstants { FoldAllFrame(p, q); }
    var folded := FoldIf(p, q, o).value;
    if o.fuseActivations { FuseAllFrame(folded); }
    if o.eliminateDeadNodes { DropAllFrame(FuseIf(folded, o)); }
  }
}
