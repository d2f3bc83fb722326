/**
 * What the rewrites do to cyclic models, which reach the optimizer before anything has looked for cycles.
 *
 * The only cycle a rewrite can open is that of a Relu fused into a Gemm which reads the Relu's output: the fused
 * node reads its own output, and the graph records no edge from a node to itself.
 */
module Cycles {
  import opened Base
  import opened Programs
  import opened Rewrites
  import opened Passes

  lemma WellFormedIsFormed(q: Program)
    requires WellFormed(q)
    ensures Formed(q)
  {
  }

  // ----- the rewrites keep programs formed -----

  lemma FoldFormed(q: Program, i: nat, v: Tensor)
    requires Formed(q) && i < |q.nodes|
    ensures Formed(FoldNode(q, i, v))
  {
    RemovedNodes(q.nodes, i);
    assert q.nodes[i] in q.nodes;
  }

  lemma DropFormed(q: Program, i: nat)
    requires Formed(q) && i < |q.nodes|
    ensures Formed(DropNode(q, i))
  {
    RemovedNodes(q.nodes, i);
  }

  // ----- cycles that fusing leaves -----

  /** Every producer ranks below its other readers, except a Relu below the Gemm it can be fused into. */
  predicate RankedButPairs(q: Program, rank: map<string, nat>) {
    && (forall n <- q.nodes :: n.name in rank)
    && forall i, j | 0 <= i < |q.nodes| && 0 <= j < |q.nodes| && Reads(q, j, i) && !Fusible(q, i, j) ::
         rank[q.nodes[i].name] < rank[q.nodes[j].name]
  }

  /** Node `j` reads another node `i`. */
  predicate Reads(q: Program, j: nat, i: nat)
    requires i < |q.nodes| && j < |q.nodes|
  {
    i != j && q.nodes[i].Out() in q.nodes[j].inputs
  }

  /** Every cycle leads through a Relu and the Gemm it can be fused into, and back. */
  ghost predicate Untangled(q: Program) {
    exists rank: map<string, nat> :: RankedButPairs(q, rank)
  }

  lemma RankedIndex(q: Program, rank: map<string, nat>)
    requires Formed(q)
    ensures Ranked(q.nodes, rank) <==>
              && (forall n <- q.nodes :: n.name in rank)
              && forall i, j | 0 <= i < |q.nodes| && 0 <= j < |q.nodes| && Reads(q, j, i) ::
                   rank[q.nodes[i].name] < rank[q.nodes[j].name]
  {
    if Ranked(q.nodes, rank) {
      forall i, j | 0 <= i < |q.nodes| && 0 <= j < |q.nodes| && Reads(q, j, i)
        ensures rank[q.nodes[i].name] < rank[q.nodes[j].name]
      {
        assert q.nodes[i] in q.nodes && q.nodes[j] in q.nodes && q.nodes[i] != q.nodes[j];
      }
    } else if forall n <- q.nodes :: n.name in rank {
      var m, n :| m in q.nodes && n in q.nodes && m != n && m.Out() in n.inputs && rank[m.name] >= rank[n.name];
      var i :| 0 <= i < |q.nodes| && q.nodes[i] == m;
      var j :| 0 <= j < |q.nodes| && q.nodes[j] == n;
      assert Reads(q, j, i);
    }
  }

  /** A program is acyclic exactly when it is untangled and no Relu that can be fused feeds back into its Gemm. */
  lemma AcyclicIsUntangled(q: Program)
    requires Formed(q)
    ensures Acyclic(q.nodes) <==> Untangled(q) && forall i: nat, j: nat | Fusible(q, i, j) :: !Reads(q, j, i)
  {
    if Acyclic(q.nodes) {
      var rank :| Ranked(q.nodes, rank);
      RankedIndex(q, rank);
      assert RankedButPairs(q, rank);
      forall i: nat, j: nat | Fusible(q, i, j) ensures !Reads(q, j, i) {
        assert Reads(q, i, j);
      }
    }
    if Untangled(q) && forall i: nat, j: nat | Fusible(q, i, j) :: !Reads(q, j, i) {
      var rank :| RankedButPairs(q, rank);
      RankedIndex(q, rank);
    }
  }

  lemma FusibleStays(q: Program, i: nat, j: nat, a: nat, b: nat)
    requires Formed(q) && Fusible(q, i, j) && a < |q.nodes| - 1 && b < |q.nodes| - 1
    requires Fusible(q, From(a, i), From(b, i))
    ensures Fusible(FuseNodes(q, i, j), a, b)
  {
    FusedAt(q, i, j);
    var r, x, y := FuseNodes(q, i, j), From(a, i), From(b, i);
    assert x != j && y != i;
    assert q.nodes[j].Out() !in q.nodes[x].inputs && q.nodes[y].Out() in q.nodes[x].inputs;
    forall k | 0 <= k < |r.nodes| && k != a ensures r.nodes[b].Out() !in r.nodes[k].inputs {
      assert From(k, i) != x && r.nodes[k].inputs == q.nodes[From(k, i)].inputs;
    }
  }

  lemma FusibleBefore(q: Program, i: nat, j: nat, a: nat, b: nat)
    requires Formed(q) && Fusible(q, i, j) && a < |q.nodes| - 1 && b < |q.nodes| - 1
    requires Fusible(FuseNodes(q, i, j), a, b)
    ensures Fusible(q, From(a, i), From(b, i))
  {
    FusedAt(q, i, j);
    var r, x, y := FuseNodes(q, i, j), From(a, i), From(b, i);
    assert x != j && y != j;
    forall k | 0 <= k < |q.nodes| && k != x ensures q.nodes[y].Out() !in q.nodes[k].inputs {
      if k == i {
        assert q.nodes[y].Out() != q.nodes[j].Out();
      } else {
        var k' := if k < i then k else k - 1;
        assert From(k', i) == k && k' != a && r.nodes[k'].inputs == q.nodes[k].inputs;
      }
    }
  }

  /** Fusing one pair neither makes nor breaks another. */
  lemma FusibleKept(q: Program, i: nat, j: nat, a: nat, b: nat)
    requires Formed(q) && Fusible(q, i, j) && a < |q.nodes| - 1 && b < |q.nodes| - 1
    ensures Fusible(FuseNodes(q, i, j), a, b) <==> Fusible(q, From(a, i), From(b, i))
  {
    assert i < |q.nodes| && j < |q.nodes|;
    hide Formed, Fusible, FuseNodes;
    if Fusible(q, From(a, i), From(b, i)) {
      FusibleStays(q, i, j, a, b);
    }
    if Fusible(FuseNodes(q, i, j), a, b) {
      FusibleBefore(q, i, j, a, b);
    }
  }

  lemma FuseKeepsRank(q: Program, i: nat, j: nat, rank: map<string, nat>)
    requires Formed(q) && Fusible(q, i, j) && RankedButPairs(q, rank)
    ensures RankedButPairs(FuseNodes(q, i, j), rank)
  {
    FusedAt(q, i, j);
    var r := FuseNodes(q, i, j);
    forall k | 0 <= k < |r.nodes| ensures r.nodes[k].name in rank && r.nodes[k].name == q.nodes[From(k, i)].name {
      assert q.nodes[From(k, i)] in q.nodes;
    }
    assert Reads(q, i, j);
    forall a, b | 0 <= a < |r.nodes| && 0 <= b < |r.nodes| && Reads(r, b, a) && !Fusible(r, a, b)
      ensures rank[r.nodes[a].name] < rank[r.nodes[b].name]
    {
      FusibleKept(q, i, j, a, b);
      var x, y := From(a, i), From(b, i);
      if x == j {
        assert Reads(q, y, i) && !Fusible(q, i, y);
      } else {
        assert Reads(q, y, x);
      }
    }
  }

  /** Room for the Relu just above its Gemm. */
  function Unfused(q: Program, i: nat, j: nat, rank: map<string, nat>): map<string, nat>
    requires i < |q.nodes| && j < |q.nodes| && q.nodes[j].name in rank
  {
    (map x <- rank :: 2 * rank[x])[q.nodes[i].name := 2 * rank[q.nodes[j].name] + 1]
  }

  lemma UnfusedNames(q: Program, i: nat, j: nat, rank: map<string, nat>)
    requires Formed(q) && Fusible(q, i, j) && RankedButPairs(FuseNodes(q, i, j), rank)
    ensures forall k | 0 <= k < |q.nodes| && k != i :: q.nodes[k].name in rank && q.nodes[k].name != q.nodes[i].name
  {
    FusedAt(q, i, j);
    var r := FuseNodes(q, i, j);
    hide Fusible, FuseNodes;
    forall k | 0 <= k < |q.nodes| && k != i ensures q.nodes[k].name in rank && q.nodes[k].name != q.nodes[i].name {
      var k' := if k < i then k else k - 1;
      assert r.nodes[k'] in r.nodes && r.nodes[k'].name == q.nodes[k].name;
    }
  }

  lemma UnfusedRanked(q: Program, i: nat, j: nat, rank: map<string, nat>)
    requires Formed(q) && Fusible(q, i, j) && RankedButPairs(FuseNodes(q, i, j), rank)
    ensures Untangled(q)
  {
    UnfusedNames(q, i, j, rank);
    var wide := Unfused(q, i, j, rank);
    hide FuseNodes, Formed, Fusible;
    forall x, y | 0 <= x < |q.nodes| && 0 <= y < |q.nodes| && Reads(q, y, x) && !Fusible(q, x, y)
      ensures wide[q.nodes[x].name] < wide[q.nodes[y].name]
    {
      UnfusedEdge(q, i, j, rank, x, y);
    }
    assert RankedButPairs(q, wide);
  }

  lemma UnfusedEdge(q: Program, i: nat, j: nat, rank: map<string, nat>, x: nat, y: nat)
    requires Formed(q) && Fusible(q, i, j) && RankedButPairs(FuseNodes(q, i, j), rank)
    requires forall k | 0 <= k < |q.nodes| && k != i :: q.nodes[k].name in rank && q.nodes[k].name != q.nodes[i].name
    requires x < |q.nodes| && y < |q.nodes| && Reads(q, y, x) && !Fusible(q, x, y)
    ensures Unfused(q, i, j, rank)[q.nodes[x].name] < Unfused(q, i, j, rank)[q.nodes[y].name]
  {
    if y == i {
      assert q.nodes[x].Out() == q.nodes[j].Out();
      assert x == j;
    } else {
      FusedEdge(q, i, j, rank, if x == i then j else x, y);
    }
  }

  lemma FusedEdge(q: Program, i: nat, j: nat, rank: map<string, nat>, x: nat, y: nat)
    requires Formed(q) && Fusible(q, i, j) && RankedButPairs(FuseNodes(q, i, j), rank)
    requires x < |q.nodes| && y < |q.nodes| && x != i && y != i && x != y && q.nodes[x].name in rank &&
             q.nodes[y].name in rank
    requires if x == j then Reads(q, y, i) else Reads(q, y, x) && !Fusible(q, x, y)
    ensures rank[q.nodes[x].name] < rank[q.nodes[y].name]
  {
    FusedAt(q, i, j);
    var r := FuseNodes(q, i, j);
    var a, b := if x < i then x else x - 1, if y < i then y else y - 1;
    assert From(a, i) == x && From(b, i) == y;
    FusibleKept(q, i, j, a, b);
    hide Formed, FuseNodes, Fusible;
    assert Reads(r, b, a);
    assert !Fusible(r, a, b) by {
      if x == j {
        NotRelu(q, i, j, y);
      }
    }
  }

  lemma NotRelu(q: Program, i: nat, j: nat, y: nat)
    requires Fusible(q, i, j)
    ensures !Fusible(q, j, y)
  {
  }

  /** Fusing keeps a program untangled, or tangled. */
  lemma FuseUntangled(q: Program, i: nat, j: nat)
    requires Formed(q) && Fusible(q, i, j)
    ensures Untangled(FuseNodes(q, i, j)) <==> Untangled(q)
  {
    if Untangled(q) {
      var rank :| RankedButPairs(q, rank);
      FuseKeepsRank(q, i, j, rank);
    }
    if Untangled(FuseNodes(q, i, j)) {
      var rank :| RankedButPairs(FuseNodes(q, i, j), rank);
      UnfusedRanked(q, i, j, rank);
    }
  }

  /** With nothing left to fuse the cycles that remain are those of more than a pair. */
  lemma {:induction false} FuseAllUntangles(q: Program)
    requires Formed(q)
    ensures Formed(FuseAll(q)) && (Acyclic(FuseAll(q).nodes) <==> Untangled(q))
    decreases |q.nodes|
  {
    match FirstFusible(q, 0)
    case None => AcyclicIsUntangled(q);
    case Some((i, j)) =>
      FuseFormed(q, i, j);
      FuseUntangled(q, i, j);
      FuseAllUntangles(FuseNodes(q, i, j));
  }

  // ----- cycles and the other rewrites -----

  lemma RemovedAt(nodes: seq<Node>, i: nat)
    requires i < |nodes|
    ensures |RemoveAt(nodes, i)| == |nodes| - 1
    ensures forall k | 0 <= k < |nodes| - 1 :: RemoveAt(nodes, i)[k] == nodes[From(k, i)]
  {
  }

  /** A node no other node reads lies on no cycle. */
  lemma UnreadRemoved(nodes: seq<Node>, i: nat)
    requires i < |nodes| && Distinct(nodes) && forall n <- nodes | n != nodes[i] :: nodes[i].Out() !in n.inputs
    ensures Acyclic(RemoveAt(nodes, i)) <==> Acyclic(nodes)
  {
    RemovedNodes(nodes, i);
    if Acyclic(nodes) {
      RemovedAcyclic(nodes, i);
    }
    if Acyclic(RemoveAt(nodes, i)) {
      var rank :| Ranked(RemoveAt(nodes, i), rank);
      var top := MaxRank(RemoveAt(nodes, i), rank) + 1;
      assert Ranked(nodes, rank[nodes[i].name := top]) by {
        RemovedNames(nodes, i);
      }
    }
  }

  lemma RemovedNames(nodes: seq<Node>, i: nat)
    requires i < |nodes| && Distinct(nodes)
    ensures forall n <- nodes | n != nodes[i] :: n.name != nodes[i].name
  {
  }

  /** A node that reads no other node's output lies on no cycle. */
  lemma SourceRemoved(nodes: seq<Node>, i: nat)
    requires i < |nodes| && Distinct(nodes) && forall n <- nodes | n != nodes[i] :: n.Out() !in nodes[i].inputs
    ensures Acyclic(RemoveAt(nodes, i)) <==> Acyclic(nodes)
  {
    RemovedNodes(nodes, i);
    if Acyclic(nodes) {
      RemovedAcyclic(nodes, i);
    }
    if Acyclic(RemoveAt(nodes, i)) {
      var rank :| Ranked(RemoveAt(nodes, i), rank);
      assert Ranked(nodes, Lifted(rank, nodes[i].name)) by {
        RemovedNames(nodes, i);
      }
    }
  }

  /** `name` below everything else. */
  function Lifted(rank: map<string, nat>, name: string): map<string, nat> {
    (map x <- rank :: rank[x] + 1)[name := 0]
  }

  lemma ConstantIsSource(p: Provider, q: Program, i: nat)
    requires Formed(q) && i < |q.nodes| && Constant(p, q, q.nodes[i])
    ensures forall n <- q.nodes :: n.Out() !in q.nodes[i].inputs
  {
  }

  /** Folding changes no pair that could be fused. */
  lemma FoldKeepsFusible(p: Provider, q: Program, i: nat, v: Tensor, a: nat, b: nat)
    requires Formed(q) && i < |q.nodes| && Constant(p, q, q.nodes[i]) && a < |q.nodes| - 1 && b < |q.nodes| - 1
    ensures Fusible(FoldNode(q, i, v), a, b) <==> Fusible(q, From(a, i), From(b, i))
  {
    RemovedAt(q.nodes, i);
    ConstantIsSource(p, q, i);
    var r, x, y := FoldNode(q, i, v), From(a, i), From(b, i);
    assert q.nodes[y] in q.nodes && q.nodes[y].Out() !in q.nodes[i].inputs;
    hide Formed, Constant;
    if Fusible(r, a, b) {
      forall k | 0 <= k < |q.nodes| && k != x ensures q.nodes[y].Out() !in q.nodes[k].inputs {
        if k != i {
          var k' := if k < i then k else k - 1;
          assert From(k', i) == k && k' != a;
        }
      }
    }
    if Fusible(q, x, y) {
      forall k | 0 <= k < |r.nodes| && k != a ensures r.nodes[b].Out() !in r.nodes[k].inputs {
        assert From(k, i) != x;
      }
    }
  }

  lemma FoldKeepsRank(p: Provider, q: Program, i: nat, v: Tensor, rank: map<string, nat>)
    requires Formed(q) && i < |q.nodes| && Constant(p, q, q.nodes[i]) && RankedButPairs(q, rank)
    ensures RankedButPairs(FoldNode(q, i, v), rank)
  {
    RemovedAt(q.nodes, i);
    RemovedNodes(q.nodes, i);
    var r := FoldNode(q, i, v);
    forall a, b | 0 <= a < |r.nodes| && 0 <= b < |r.nodes| && Reads(r, b, a) && !Fusible(r, a, b)
      ensures rank[r.nodes[a].name] < rank[r.nodes[b].name]
    {
      FoldKeepsFusible(p, q, i, v, a, b);
      assert Reads(q, From(b, i), From(a, i));
    }
  }

  lemma UnfoldedNames(q: Program, i: nat, v: Tensor, rank: map<string, nat>)
    requires Formed(q) && i < |q.nodes| && RankedButPairs(FoldNode(q, i, v), rank)
    ensures forall k | 0 <= k < |q.nodes| && k != i :: q.nodes[k].name in rank && q.nodes[k].name != q.nodes[i].name
  {
    RemovedAt(q.nodes, i);
    var r := FoldNode(q, i, v);
    forall k | 0 <= k < |q.nodes| && k != i ensures q.nodes[k].name in rank && q.nodes[k].name != q.nodes[i].name {
      assert r.nodes[if k < i then k else k - 1] in r.nodes;
    }
  }

  lemma UnfoldedRanked(p: Provider, q: Program, i: nat, v: Tensor, rank: map<string, nat>)
    requires Formed(q) && i < |q.nodes| && Constant(p, q, q.nodes[i]) && RankedButPairs(FoldNode(q, i, v), rank)
    ensures RankedButPairs(q, Lifted(rank, q.nodes[i].name))
  {
    UnfoldedNames(q, i, v, rank);
    ConstantIsSource(p, q, i);
    var wide := Lifted(rank, q.nodes[i].name);
    hide Formed, Constant, FoldNode, Fusible;
    forall x, y | 0 <= x < |q.nodes| && 0 <= y < |q.nodes| && Reads(q, y, x) && !Fusible(q, x, y)
      ensures wide[q.nodes[x].name] < wide[q.nodes[y].name]
    {
      assert q.nodes[x] in q.nodes && y != i;
      if x != i {
        UnfoldedEdge(p, q, i, v, rank, x, y);
      }
    }
  }

  lemma UnfoldedEdge(p: Provider, q: Program, i: nat, v: Tensor, rank: map<string, nat>, x: nat, y: nat)
    requires Formed(q) && i < |q.nodes| && Constant(p, q, q.nodes[i]) && RankedButPairs(FoldNode(q, i, v), rank)
    requires x < |q.nodes| && y < |q.nodes| && x != i && y != i && Reads(q, y, x) && !Fusible(q, x, y)
    requires q.nodes[x].name in rank && q.nodes[y].name in rank
    ensures rank[q.nodes[x].name] < rank[q.nodes[y].name]
  {
    RemovedAt(q.nodes, i);
    var a, b := if x < i then x else x - 1, if y < i then y else y - 1;
    assert From(a, i) == x && From(b, i) == y;
    FoldKeepsFusible(p, q, i, v, a, b);
    hide Formed, Constant, Fusible;
    assert Reads(FoldNode(q, i, v), b, a);
  }

  lemma FoldUntangled(p: Provider, q: Program, i: nat, v: Tensor)
    requires Formed(q) && i < |q.nodes| && Constant(p, q, q.nodes[i])
    ensures Untangled(FoldNode(q, i, v)) <==> Untangled(q)
    ensures Acyclic(FoldNode(q, i, v).nodes) <==> Acyclic(q.nodes)
  {
    if Untangled(q) {
      var rank :| RankedButPairs(q, rank);
      FoldKeepsRank(p, q, i, v, rank);
    }
    if Untangled(FoldNode(q, i, v)) {
      var rank :| RankedButPairs(FoldNode(q, i, v), rank);
      UnfoldedRanked(p, q, i, v, rank);
    }
    ConstantIsSource(p, q, i);
    SourceRemoved(q.nodes, i);
  }

  lemma {:induction false} FoldAllUntangles(p: Provider, q: Program)
    requires Formed(q) && FoldAll(p, q).Some?
    ensures var r := FoldAll(p, q).value;
            Formed(r) && (Untangled(r) <==> Untangled(q)) && (Acyclic(r.nodes) <==> Acyclic(q.nodes))
    decreases |q.nodes|
  {
    hide Formed, Untangled, Acyclic;
    match FirstConstant(p, q)
    case None =>
    case Some(i) =>
      var v := Fire(p, q.nodes[i], q.inits).value;
      FoldFormed(q, i, v);
      FoldUntangled(p, q, i, v);
      FoldAllUntangles(p, FoldNode(q, i, v));
  }

  lemma {:induction false} DropAllCycles(q: Program)
    requires Formed(q)
    ensures Formed(DropAll(q)) && (Acyclic(DropAll(q).nodes) <==> Acyclic(q.nodes))
    decreases |q.nodes|
  {
    match FirstDead(q)
    case None =>
    case Some(i) =>
      DropFormed(q, i);
      assert q.nodes[i] in q.nodes && q.nodes[i].Out() in q.nodes[i].outputs;
      UnreadRemoved(q.nodes, i);
      DropAllCycles(DropNode(q, i));
  }

  /**
   * Which models are acyclic once optimized: all the acyclic ones, and, when fusing is on, those whose every
   * cycle leads through a Relu and the Gemm it is fused into.
   */
  lemma OptimizedAcyclic(p: Provider, q: Program, o: Options)
    requires Formed(q) && Optimize(p, q, o).Some?
    ensures var r := Optimize(p, q, o).value;
            Formed(r) && (Acyclic(r.nodes) <==> if o.fuseActivations then Untangled(q) else Acyclic(q.nodes))
  {
    hide Formed, Untangled, Acyclic;
    if o.foldConstants {
      FoldAllUntangles(p, q);
    }
    var folded := FoldIf(p, q, o).value;
    if o.fuseActivations {
      FuseAllUntangles(folded);
    }
    if o.eliminateDeadNodes {
      DropAllCycles(FuseIf(folded, o));
    }
  }

  // ----- a cyclic model that is acyclic once optimized -----

  const GEMM := Node("g", "Gemm", ["y", "w"], ["h"], map[])
  const RELU := Node("r", "Relu", ["h"], ["y"], map[])
  const SELF := Node("g", "GemmRelu", ["y", "w"], ["y"], map[])

  function FedBack(w: Tensor): Program {
    Program([GEMM, RELU], map["w" := w], ["x"], ["y"])
  }

  lemma FedBackParts(p: Provider, w: Tensor)
    ensures WellFormed(FedBack(w)) && !Acyclic(FedBack(w).nodes)
    ensures FirstConstant(p, FedBack(w)) == None && FirstFusible(FedBack(w), 0) == Some((1, 0))
  {
    var q := FedBack(w);
    assert GEMM.inputs[0] == "y" && RELU.inputs == ["h"];
    assert RELU.inputs[0] !in q.inits && GEMM.inputs[0] !in q.inits;
    assert GEMM in q.nodes && RELU in q.nodes && RELU.Out() in GEMM.inputs && GEMM.Out() in RELU.inputs;
    assert Fusible(q, 1, 0);
    assert !Fusible(q, 0, 0) && !Fusible(q, 0, 1);
    assert FirstPartner(q, 0, 2) == None && FirstPartner(q, 0, 1) == None && FirstPartner(q, 0, 0) == None;
  }

  lemma FedBackDone(p: Provider, r: Program)
    requires r.nodes == [SELF] && r.outputs == ["y"]
    ensures FuseAll(r) == r && DropAll(r) == r && Acyclic(r.nodes)
  {
    assert !Fusible(r, 0, 0);
    assert SELF in r.nodes && SELF.outputs[0] in Consumed(r);
    assert FirstDead(r) == None;
    assert Ranked(r.nodes, map["g" := 0]);
  }

  /** Fusing turns this cycle of two nodes into one node that reads its own output. */
  lemma FusingHidesCycle(p: Provider, w: Tensor, o: Options)
    requires o.fuseActivations
    ensures WellFormed(FedBack(w)) && !Acyclic(FedBack(w).nodes)
    ensures Optimize(p, FedBack(w), o) == Some(FedBack(w).(nodes := [SELF]))
    ensures Acyclic([SELF])
  {
    var q := FedBack(w);
    FedBackParts(p, w);
    var r := q.(nodes := [SELF]);
    assert FuseNodes(q, 1, 0) == r;
    FedBackDone(p, r);
  }
}
