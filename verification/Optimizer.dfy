/** The optimizer's passes on a model's graph, in place. */
module Optimizer {
  import opened Base
  import opened Programs
  import opened Rewrites
  import opened Passes
  import opened Cycles
  import opened Edges
  import opened Paths
  import opened Graphs

  class Model {
    const graph: Graph
    var inits: map<string, Tensor>

    constructor ()
      ensures Valid() && View() == Program([], map[], [], []) && fresh(graph)
    {
      graph := new Graph();
      inits := map[];
    }

    ghost predicate Valid()
      reads this, graph
    {
      graph.Valid() && EdgesRight(graph.entries)
    }

    ghost function View(): Program
      requires graph.Valid()
      reads this, graph
    {
      Program(graph.Nodes(), inits, graph.inputs, graph.outputs)
    }

    method AddInitializer(name: string, value: Tensor)
      modifies `inits
      ensures inits == old(inits)[name := value]
    {
      inits := inits[name := value];
    }

    /** Removes the node called `name`, which stands at place `i`. */
    method RemoveNode(name: string, ghost i: nat)
      requires graph.Valid() && i < |graph.order| && graph.order[i] == name
      modifies graph
      ensures Valid() && graph.inputs == old(graph.inputs) && graph.outputs == old(graph.outputs)
      ensures graph.Nodes() == RemoveAt(old(graph.Nodes()), i)
    {
      ghost var before, order := graph.entries, graph.order;
      assert name in order;
      graph.RemoveNode(name);
      NodesWithout(before, graph.entries, order, i);
    }
  }

  /** What removing a name does to the nodes. */
  lemma NodesWithout(e: Entries, f: Entries, order: seq<string>, i: nat)
    requires NoRepeats(order) && i < |order| && forall x <- order :: x in e
    requires f.Keys == e.Keys - {order[i]} && forall x <- f :: f[x].node == e[x].node
    ensures forall x <- Without(order, order[i]) :: x in f
    ensures NodesOf(f, Without(order, order[i])) == RemoveAt(NodesOf(e, order), i)
  {
    WithoutIsRemoveAt(order, i);
    hide Without;
    NodesRemoved(e, f, order, i);
  }

  lemma NodesRemoved(e: Entries, f: Entries, order: seq<string>, i: nat)
    requires NoRepeats(order) && i < |order| && forall x <- order :: x in e
    requires f.Keys == e.Keys - {order[i]} && forall x <- f :: f[x].node == e[x].node
    ensures forall x <- RemoveAt(order, i) :: x in f
    ensures NodesOf(f, RemoveAt(order, i)) == RemoveAt(NodesOf(e, order), i)
  {
    var left := RemoveAt(order, i);
    forall k | 0 <= k < |left| ensures left[k] == order[if k < i then k else k + 1] && left[k] in f {
    }
  }

  // ----- constant folding -----

  method AllConstant(m: Model, node: Node) returns (all: bool)
    ensures all <==> node.inputs != [] && forall x <- node.inputs :: x in m.inits
  {
    for i := 0 to |node.inputs|
      invariant forall j | 0 <= j < i :: node.inputs[j] in m.inits
    {
      if node.inputs[i] !in m.inits {
        return false;
      }
    }
    return node.inputs != [];
  }

  method FindConstant(m: Model, p: Provider) returns (candidate: Option<nat>)
    requires m.Valid()
    ensures candidate == FirstConstant(p, m.View())
  {
    hide EdgesRight;
    ghost var q := m.View();
    for i := 0 to |m.graph.order|
      invariant forall j | 0 <= j < i :: !Constant(p, q, q.nodes[j])
    {
      assert m.graph.order[i] in m.graph.order;
      var node := m.graph.entries[m.graph.order[i]].node;
      if |node.outputs| == 1 && p.supports(node.Op()) {
        var all := AllConstant(m, node);
        if all {
          FirstIndexIs(q.nodes, n => Constant(p, q, n), i);
          return Some(i);
        }
      }
    }
    return None;
  }

  /** Computes a node from the initializers it reads. */
  method ComputeConstant(m: Model, p: Provider, node: Node) returns (output: Option<Tensor>)
    requires forall x <- node.inputs :: x in m.inits
    ensures output == Fire(p, node, m.inits)
  {
    var inits, inputs: seq<Tensor> := m.inits, [];
    for i := 0 to |node.inputs|
      invariant |inputs| == i && forall j | 0 <= j < i :: inputs[j] == inits[node.inputs[j]]
    {
      inputs := inputs + [inits[node.inputs[i]]];
    }
    assert inputs == seq(|node.inputs|, i requires 0 <= i < |node.inputs| => inits[node.inputs[i]]);
    return p.compute(node.Op(), node.attributes, inputs);
  }

  /** Folds one node; fails when the computation does. */
  method FoldOne(m: Model, p: Provider, i: nat) returns (ok: bool)
    requires m.Valid() && i < |m.View().nodes| && Constant(p, m.View(), m.View().nodes[i])
    modifies m, m.graph
    ensures m.Valid()
    ensures match Fire(p, old(m.View()).nodes[i], old(m.inits))
            case None => !ok
            case Some(v) => ok && m.View() == FoldNode(old(m.View()), i, v)
  {
    hide Fire, EdgesRight;
    assert m.graph.order[i] in m.graph.order;
    var node := m.graph.entries[m.graph.order[i]].node;
    var output := ComputeConstant(m, p, node);
    if output.None? {
      return false;
    }
    m.AddInitializer(node.outputs[0], output.value);
    m.RemoveNode(node.name, i);
    return true;
  }

  /** Replaces nodes of constant inputs by their values; fails when a computation does. */
  method FoldConstants(m: Model, p: Provider) returns (folded: Result<nat>)
    requires m.Valid()
    modifies m, m.graph
    ensures m.Valid()
    ensures match FoldAll(p, old(m.View()))
            case None => folded.Err?
            case Some(r) => folded == Ok(|old(m.View()).nodes| - |r.nodes|) && m.View() == r
  {
    hide Fire, EdgesRight, FirstConstant, Constant;
    var count := 0;
    ghost var start := m.View();
    while true
      invariant m.Valid() && FoldAll(p, m.View()) == FoldAll(p, start)
      invariant count + |m.View().nodes| == |start.nodes|
      decreases |m.View().nodes|
    {
      var candidate := FindConstant(m, p);
      if candidate.None? {
        return Ok(count);
      }
      var ok := FoldOne(m, p, candidate.value);
      if !ok {
        return Err("operator failed");
      }
      count := count + 1;
    }
  }

  // ----- activation fusion -----

  lemma SingletonList(s: seq<string>, y: string)
    requires forall z: string :: multiset(s)[z] == if z == y then 1 else 0
    ensures s == [y]
  {
    assert multiset(s) == multiset{y};
    assert |s| == |multiset(s)|;
    assert s[0] in multiset(s);
  }

  lemma OneMatch(out: string, ins: seq<string>)
    ensures Matches([out], ins) == if out in ins then 1 else 0
  {
    assert [out][..0] == [];
  }

  lemma LinksOne(u: Node, v: Node)
    requires |u.outputs| == 1
    ensures Links(u, v) == if u.name != v.name && u.Out() in v.inputs then 1 else 0
  {
    assert u.outputs == [u.Out()];
    OneMatch(u.Out(), v.inputs);
  }

  /** The table and order of a valid graph and the program they make. */
  ghost predicate Shows(e: Entries, order: seq<string>, q: Program) {
    && NoRepeats(order) && (forall x :: x in order <==> x in e) && Named(e) && EdgesRight(e)
    && q.nodes == NodesOf(e, order) && Formed(q)
  }

  /** What the optimizer checks on the edges before fusing node `i`. */
  predicate EdgesAllowFusion(e: Entries, outputs: seq<string>, name: string)
    requires name in e
  {
    && e[name].node.Op().Relu? && |e[name].node.inputs| == 1 && |e[name].parents| == 1
    && var parent := e[name].parents[0];
       && parent in e && e[parent].node.Op().Gemm? && |e[parent].node.outputs| == 1
       && |e[parent].children| == 1 && e[parent].node.outputs[0] !in outputs
  }

  /** Between two nodes there is one recorded edge if the second reads the first's output, and none otherwise. */
  lemma ShownEdges(e: Entries, order: seq<string>, q: Program, x: nat, y: nat)
    requires Shows(e, order, q) && x < |order| && y < |order| && order[x] in e && order[y] in e
    ensures ChildCount(e, order[x], order[y]) == ParentCount(e, order[x], order[y]) ==
            if x != y && q.nodes[x].Out() in q.nodes[y].inputs then 1 else 0
  {
    var u, v := e[order[x]].node, e[order[y]].node;
    assert PairRight(e, order[x], order[y], Links(u, v));
    assert u.name == order[x] && v.name == order[y] && q.nodes[x] in q.nodes;
    hide EdgesRight, Links;
    LinksOne(u, v);
  }

  /** A Gemm with a single recorded child has a single reader. */
  lemma SoleReader(e: Entries, order: seq<string>, q: Program, i: nat, j: nat, k: nat)
    requires Shows(e, order, q) && i < |order| && j < |order| && k < |order| && k != i && order[j] in e
    requires e[order[j]].children == [order[i]] && q.nodes[j].Op().Gemm?
    ensures q.nodes[j].Out() !in q.nodes[k].inputs
  {
    assert order[k] in order && order[k] != order[i];
    if k == j {
      assert q.nodes[j] in q.nodes;
    } else {
      hide EdgesRight, Named, NoRepeats, Formed;
      ShownEdges(e, order, q, j, k);
    }
  }

  /** The recorded parent of a node that reads one tensor is its producer. */
  lemma SoleParent(e: Entries, order: seq<string>, q: Program, i: nat, parent: string) returns (j: nat)
    requires Shows(e, order, q) && i < |order| && order[i] in e && parent in e[order[i]].parents && parent in e
    requires |e[order[i]].node.inputs| == 1 && |e[parent].children| == 1
    ensures j < |order| && order[j] == parent && i != j
    ensures q.nodes[i].inputs == [q.nodes[j].Out()] && e[parent].children == [order[i]]
  {
    hide EdgesRight, Named, NoRepeats, Formed;
    assert parent in order;
    j :| 0 <= j < |order| && order[j] == parent;
    ShownEdges(e, order, q, j, i);
    assert q.nodes[i].inputs == e[order[i]].node.inputs;
    hide Shows;
    assert multiset(e[order[i]].parents)[parent] > 0;
    assert multiset(e[parent].children)[order[i]] == 1;
    assert order[i] in e[parent].children;
  }

  lemma EdgesFindFusible(e: Entries, order: seq<string>, q: Program, i: nat) returns (j: nat)
    requires Shows(e, order, q) && i < |order| && order[i] in e && EdgesAllowFusion(e, q.outputs, order[i])
    ensures j < |order| && order[j] == e[order[i]].parents[0] && Fusible(q, i, j)
  {
    assert e[order[i]].parents[0] in e[order[i]].parents;
    j := SoleParent(e, order, q, i, e[order[i]].parents[0]);
    forall k | 0 <= k < |q.nodes| && k != i ensures q.nodes[j].Out() !in q.nodes[k].inputs {
      hide *;
      SoleReader(e, order, q, i, j, k);
    }
  }

  /** A list of names, one of them once and the others never. */
  lemma OnlyOnce(order: seq<string>, s: seq<string>, j: nat)
    requires NoRepeats(order) && j < |order| && forall x <- s :: x in order
    requires forall k | 0 <= k < |order| :: multiset(s)[order[k]] == if k == j then 1 else 0
    ensures s == [order[j]]
  {
    forall z: string ensures multiset(s)[z] == if z == order[j] then 1 else 0 {
      if z in order {
        var k :| 0 <= k < |order| && order[k] == z;
      } else {
        assert z !in s;
      }
    }
    SingletonList(s, order[j]);
  }

  lemma OneProducer(q: Program, i: nat, j: nat, k: nat)
    requires Formed(q) && Fusible(q, i, j) && k < |q.nodes|
    ensures k != i && q.nodes[k].Out() in q.nodes[i].inputs <==> k == j
  {
    assert q.nodes[i].inputs == [q.nodes[j].Out()];
    assert k != j ==> q.nodes[k].Out() != q.nodes[j].Out();
  }

  lemma OnlyParent(e: Entries, order: seq<string>, q: Program, i: nat, j: nat)
    requires Shows(e, order, q) && i < |order| && order[i] in e && Fusible(q, i, j)
    ensures e[order[i]].parents == [order[j]]
  {
    assert forall x <- e[order[i]].parents :: x in order;
    hide EdgesRight, Named;
    forall k | 0 <= k < |order| ensures multiset(e[order[i]].parents)[order[k]] == if k == j then 1 else 0 {
      assert order[k] in order;
      ShownEdges(e, order, q, k, i);
      hide Shows, Fusible;
      OneProducer(q, i, j, k);
    }
    hide Shows, Fusible;
    OnlyOnce(order, e[order[i]].parents, j);
  }

  lemma OnlyChild(e: Entries, order: seq<string>, q: Program, i: nat, j: nat)
    requires Shows(e, order, q) && i < |order| && order[i] in e && Fusible(q, i, j)
    ensures order[j] in e && e[order[j]].children == [order[i]]
  {
    assert order[j] in order;
    assert forall x <- e[order[j]].children :: x in order;
    hide EdgesRight, Named;
    forall k | 0 <= k < |order| ensures multiset(e[order[j]].children)[order[k]] == if k == i then 1 else 0 {
      assert order[k] in order;
      ShownEdges(e, order, q, j, k);
    }
    OnlyOnce(order, e[order[j]].children, i);
  }

  lemma FusibleHasEdges(e: Entries, order: seq<string>, q: Program, i: nat, j: nat)
    requires Shows(e, order, q) && i < |order| && order[i] in e && Fusible(q, i, j)
    ensures EdgesAllowFusion(e, q.outputs, order[i])
  {
    OnlyParent(e, order, q, i, j);
    OnlyChild(e, order, q, i, j);
    hide EdgesRight, NoRepeats, Formed;
  }

  /** A node can be fused into one producer at most. */
  lemma {:induction false} PartnerIs(q: Program, i: nat, j: nat, k: nat)
    requires Formed(q) && Fusible(q, i, j) && k <= j
    ensures FirstPartner(q, i, k) == Some(j)
    decreases j - k
  {
    if k < j {
      assert !Fusible(q, i, k) by {
        assert q.nodes[k].Out() != q.nodes[j].Out();
      }
      hide Fusible, Formed;
      PartnerIs(q, i, j, k + 1);
    }
  }

  /** The first Relu whose edges allow fusing it, and its producer. */
  method FindFusible(m: Model) returns (found: Option<(string, string)>, ghost i: nat, ghost j: nat)
    requires m.Valid() && Formed(m.View())
    ensures found.None? ==> FirstFusible(m.View(), 0) == None
    ensures found.Some? ==>
              && i < |m.graph.order| && j < |m.graph.order| && found.value == (m.graph.order[i], m.graph.order[j])
              && FirstFusible(m.View(), 0) == Some((i, j))
  {
    hide EdgesRight, Formed, Fusible;
    ghost var q := m.View();
    for n := 0 to |m.graph.order|
      invariant FirstFusible(q, 0) == FirstFusible(q, n)
    {
      var name := m.graph.order[n];
      assert name in m.graph.order;
      assert Shows(m.graph.entries, m.graph.order, q);
      if EdgesAllowFusion(m.graph.entries, m.graph.outputs, name) {
        j := EdgesFindFusible(m.graph.entries, m.graph.order, q, n);
        PartnerIs(q, n, j, 0);
        return Some((name, m.graph.entries[name].parents[0])), n, j;
      }
      if FirstPartner(q, n, 0).Some? {
        FusibleHasEdges(m.graph.entries, m.graph.order, q, n, FirstPartner(q, n, 0).value);
      }
    }
    return None, 0, 0;
  }

  lemma FusibleApart(q: Program, i: nat, j: nat)
    requires Fusible(q, i, j)
    ensures i != j
  {
  }

  /** The view after a node has been given a new operator and outputs. */
  lemma RewrittenNodes(e: Entries, order: seq<string>, j: nat, node: Node)
    requires NoRepeats(order) && j < |order| && forall x <- order :: x in e
    ensures var f := e[order[j] := e[order[j]].(node := node)];
            (forall x <- order :: x in f) && NodesOf(f, order) == NodesOf(e, order)[j := node]
  {
  }

  method FuseActivations(m: Model) returns (fused: nat)
    requires m.Valid() && Formed(m.View())
    modifies m.graph
    ensures m.Valid() && m.View() == FuseAll(old(m.View()))
    ensures fused == |old(m.View()).nodes| - |m.View().nodes|
  {
    hide EdgesRight, Formed, Fusible;
    fused := 0;
    ghost var start := m.View();
    while true
      invariant m.Valid() && Formed(m.View())
      invariant FuseAll(m.View()) == FuseAll(start) && fused + |m.View().nodes| == |start.nodes| &&
                m.inits == start.inits
      decreases |m.View().nodes|
    {
      ghost var q := m.View();
      var found, i, j := FindFusible(m);
      if found.None? {
        return;
      }
      FusibleApart(q, i, j);
      FuseFormed(q, i, j);
      FuseInto(m, found.value.0, found.value.1, i, j);
      assert m.View() == FuseNodes(q, i, j);
      fused := fused + 1;
    }
  }

  method FuseInto(m: Model, target: string, producer: string, ghost i: nat, ghost j: nat)
    requires m.Valid() && i < |m.graph.order| && j < |m.graph.order| && i != j
    requires target == m.graph.order[i] && producer == m.graph.order[j]
    modifies m.graph
    ensures m.Valid() && m.View() == FuseNodes(old(m.View()), i, j)
  {
    hide EdgesRight;
    ghost var before, order := m.graph.entries, m.graph.order;
    assert target in order && producer in order;
    var relu := m.graph.entries[target].node;
    m.graph.Rewrite(producer, "GemmRelu", relu.outputs);
    RewrittenNodes(before, order, j, before[producer].node.(opText := "GemmRelu", outputs := relu.outputs));
    m.RemoveNode(target, i);
  }

  // ----- dead node elimination -----

  function ReadNames(nodes: seq<Node>): set<string> {
    set n <- nodes, x <- n.inputs :: x
  }

  lemma ReadMore(nodes: seq<Node>, i: nat)
    requires i < |nodes|
    ensures ReadNames(nodes[..i + 1]) == ReadNames(nodes[..i]) + set x <- nodes[i].inputs
  {
    assert nodes[..i + 1] == nodes[..i] + [nodes[i]];
  }

  method ConsumedNames(m: Model) returns (consumed: set<string>)
    requires m.Valid()
    ensures consumed == Consumed(m.View())
  {
    hide ReadNames, EdgesRight;
    ghost var nodes := m.graph.Nodes();
    consumed := {};
    NothingRead();
    for i := 0 to |m.graph.order|
      invariant consumed == ReadNames(nodes[..i])
    {
      assert m.graph.order[i] in m.graph.order;
      ReadMore(nodes, i);
      consumed := consumed + set x <- m.graph.entries[m.graph.order[i]].node.inputs;
    }
    assert nodes[..|nodes|] == nodes;
    ReadIsConsumed(m.View());
    consumed := consumed + set o <- m.graph.outputs;
  }

  lemma NothingRead()
    ensures ReadNames([]) == {}
  {
  }

  lemma ReadIsConsumed(q: Program)
    ensures Consumed(q) == ReadNames(q.nodes) + set o <- q.outputs
  {
  }

  method FindDead(m: Model) returns (dead: Option<nat>)
    requires m.Valid()
    ensures dead == FirstDead(m.View())
  {
    hide EdgesRight, Consumed;
    var consumed := ConsumedNames(m);
    ghost var q := m.View();
    for i := 0 to |m.graph.order|
      invariant forall j | 0 <= j < i :: !Dead(q, q.nodes[j])
    {
      assert m.graph.order[i] in m.graph.order;
      var outputs := m.graph.entries[m.graph.order[i]].node.outputs;
      if forall o <- outputs :: o !in consumed {
        FirstIndexIs(q.nodes, n => Dead(q, n), i);
        return Some(i);
      }
    }
    return None;
  }

  method EliminateDeadNodes(m: Model) returns (eliminated: nat)
    requires m.Valid()
    modifies m.graph
    ensures m.Valid() && m.View() == DropAll(old(m.View()))
    ensures eliminated == |old(m.View()).nodes| - |m.View().nodes|
  {
    hide EdgesRight, Dead;
    eliminated := 0;
    ghost var start := m.View();
    while true
      invariant m.Valid() && DropAll(m.View()) == DropAll(start) && m.inits == start.inits
      invariant eliminated + |m.View().nodes| == |start.nodes|
      decreases |m.View().nodes|
    {
      ghost var q := m.View();
      var dead := FindDead(m);
      if dead.None? {
        return;
      }
      m.RemoveNode(m.graph.order[dead.value], dead.value);
      assert m.View() == DropNode(q, dead.value);
      eliminated := eliminated + 1;
    }
  }

  // ----- the whole run -----

  datatype OptimizationReport = OptimizationReport(nodesBefore: nat, nodesAfter: nat, fused: nat, folded: nat,
                                                   eliminated: nat)

  /** Folds, fuses and eliminates, in that order, once each. */
  method Run(m: Model, p: Provider, options: Options) returns (report: Result<OptimizationReport>)
    requires m.Valid() && Formed(m.View())
    modifies m, m.graph
    ensures m.Valid()
    ensures match Optimize(p, old(m.View()), options)
            case None => report.Err?
            case Some(r) => report.Ok? && m.View() == r
    ensures report.Ok? ==>
              && report.value.nodesBefore == |old(m.View()).nodes| && report.value.nodesAfter == |m.View().nodes|
              && report.value.nodesBefore - report.value.nodesAfter ==
                 report.value.folded + report.value.fused + report.value.eliminated
              && FoldIf(p, old(m.View()), options).Some?
              && var folded := FoldIf(p, old(m.View()), options).value;
                 && report.value.folded == |old(m.View()).nodes| - |folded.nodes|
                 && report.value.fused == |folded.nodes| - |FuseIf(folded, options).nodes|
                 && report.value.eliminated == |FuseIf(folded, options).nodes| - |m.View().nodes|
  {
    hide EdgesRight, Formed;
    ghost var q := m.View();
    var before, folded, fused, eliminated := |m.graph.order|, 0, 0, 0;
    if options.foldConstants {
      var f := FoldConstants(m, p);
      if f.Err? {
        return Err(f.message);
      }
      folded := f.value;
      FoldAllUntangles(p, q);
    }
    if options.fuseActivations {
      fused := FuseActivations(m);
    }
    if options.eliminateDeadNodes {
      eliminated := EliminateDeadNodes(m);
    }
    return Ok(OptimizationReport(before, |m.graph.order|, fused, folded, eliminated));
  }
}
