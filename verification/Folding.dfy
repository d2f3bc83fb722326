/**
 * Which nodes the passes leave. Folding leaves exactly those that depend on something it cannot know, and fusing leaves
 * no product that could take in an activation.
 */
module Folding {
  import opened Base
  import opened Programs
  import opened Rewrites
  import opened Passes

  /** The node cannot be computed ahead of time whatever its producers are. */
  predicate Unknown(p: Provider, q: Program, n: Node) {
    || !p.supports(n.Op()) || n.inputs == []
    || exists x <- n.inputs :: x !in q.inits && x !in OutNames(q.nodes)
  }

  /** A chain of nodes, each read by the next. */
  predicate Carries(q: Program, path: seq<Node>) {
    && path != [] && (forall n <- path :: n in q.nodes)
    && forall k | 0 <= k < |path| - 1 :: path[k].Out() in path[k + 1].inputs
  }

  /** The node depends on one that cannot be computed ahead of time. */
  ghost predicate Varying(p: Provider, q: Program, n: Node) {
    exists path: seq<Node> :: Carries(q, path) && Unknown(p, q, path[0]) && path[|path| - 1] == n
  }

  lemma FoldKeepsVarying(p: Provider, q: Program, i: nat, v: Tensor, n: Node)
    requires WellFormed(q) && i < |q.nodes| && Constant(p, q, q.nodes[i])
    ensures Varying(p, FoldNode(q, i, v), n) <==> Varying(p, q, n)
  {
    var c, r := q.nodes[i], FoldNode(q, i, v);
    RemovedNodes(q.nodes, i);
    assert c in q.nodes && c.Out() in OutNames(q.nodes);
    if Varying(p, r, n) {
      var path: seq<Node> :| Carries(r, path) && Unknown(p, r, path[0]) && path[|path| - 1] == n;
      assert Carries(q, path) && Unknown(p, q, path[0]);
    }
    if Varying(p, q, n) {
      var path: seq<Node> :| Carries(q, path) && Unknown(p, q, path[0]) && path[|path| - 1] == n;
      PathAvoids(p, q, i, path);
      assert Carries(r, path) && Unknown(p, r, path[0]);
    }
  }

  lemma PathAvoids(p: Provider, q: Program, i: nat, path: seq<Node>)
    requires WellFormed(q) && i < |q.nodes| && Constant(p, q, q.nodes[i])
    requires Carries(q, path) && Unknown(p, q, path[0])
    ensures q.nodes[i] !in path
  {
    forall k | 0 <= k < |path| ensures path[k] != q.nodes[i] {
      if k > 0 {
        assert path[k - 1] in path && path[k - 1].Out() in path[k - 1 + 1].inputs;
      }
    }
  }

  lemma {:induction false} LeftIsVarying(p: Provider, q: Program, rank: map<string, nat>, n: Node)
    requires WellFormed(q) && Ranked(q.nodes, rank) && n in q.nodes && forall m <- q.nodes :: !Constant(p, q, m)
    ensures Varying(p, q, n)
    decreases rank[n.name]
  {
    if Unknown(p, q, n) {
      assert Carries(q, [n]) && [n][0] == n;
    } else {
      var x :| x in n.inputs && x !in q.inits;
      var m :| m in q.nodes && m.Out() == x;
      LeftIsVarying(p, q, rank, m);
      var path: seq<Node> :| Carries(q, path) && Unknown(p, q, path[0]) && path[|path| - 1] == m;
      VaryingLonger(p, q, path, n);
    }
  }

  lemma VaryingLonger(p: Provider, q: Program, path: seq<Node>, n: Node)
    requires Carries(q, path) && Unknown(p, q, path[0]) && n in q.nodes && path[|path| - 1].Out() in n.inputs
    ensures Varying(p, q, n)
  {
    var longer := path + [n];
    forall k | 0 <= k < |longer| - 1 ensures longer[k].Out() in longer[k + 1].inputs {
      assert k < |path| - 1 ==> longer[k] == path[k] && longer[k + 1] == path[k + 1];
    }
    assert Carries(q, longer) && longer[0] == path[0] && longer[|longer| - 1] == n;
  }

  /** Folding leaves exactly the nodes that depend on something it cannot know. */
  lemma {:induction false} FoldAllKeepsVarying(p: Provider, q: Program, n: Node)
    requires WellFormed(q) && Acyclic(q.nodes) && FoldAll(p, q).Some?
    ensures n in FoldAll(p, q).value.nodes <==> Varying(p, q, n)
    decreases |q.nodes|
  {
    match FirstConstant(p, q)
    case None =>
      if n in q.nodes {
        var rank :| Ranked(q.nodes, rank);
        LeftIsVarying(p, q, rank, n);
      }
      if Varying(p, q, n) {
        var path: seq<Node> :| Carries(q, path) && Unknown(p, q, path[0]) && path[|path| - 1] == n;
        assert n in path;
      }
    case Some(i) =>
      var v := Fire(p, q.nodes[i], q.inits).value;
      FoldKeepsVarying(p, q, i, v, n);
      FoldRefines(p, q, i, v);
      RefinesWellFormed(p, q, FoldNode(q, i, v));
      FoldAllKeepsVarying(p, FoldNode(q, i, v), n);
  }

  // ----- what fusing leaves -----

  /** The activation can go into the product: nothing else has any use for the product's result. */
  predicate Absorbs(q: Program, gemm: Node, relu: Node) {
    && gemm in q.nodes && relu in q.nodes && gemm.opText == "Gemm" && relu.opText == "Relu"
    && |gemm.outputs| == 1 && relu.inputs == gemm.outputs
    && gemm.outputs[0] !in q.outputs
    && forall n <- q.nodes :: gemm.outputs[0] in n.inputs ==> n == relu
  }

  /** After fusing, no product is left that could have taken in an activation. */
  lemma FusionIsComplete(p: Provider, q: Program, gemm: Node, relu: Node)
    requires WellFormed(q) && Acyclic(q.nodes) && Fuses(p)
    ensures !Absorbs(FuseAll(q), gemm, relu)
  {
    hide FuseAll, Fusible, Refines, Absorbs;
    var r := FuseAll(q);
    FuseAllRefines(p, q);
    RefinesWellFormed(p, q, r);
    if Absorbs(r, gemm, relu) {
      AbsorbsFusible(r, gemm, relu);
    }
  }

  lemma AbsorbsFusible(q: Program, gemm: Node, relu: Node)
    requires WellFormed(q) && Absorbs(q, gemm, relu)
    ensures exists i, j | 0 <= i < |q.nodes| && 0 <= j < |q.nodes| :: Fusible(q, i, j)
  {
    var j :| 0 <= j < |q.nodes| && q.nodes[j] == gemm;
    var i :| 0 <= i < |q.nodes| && q.nodes[i] == relu;
    forall k | 0 <= k < |q.nodes| && k != i ensures gemm.outputs[0] !in q.nodes[k].inputs {
      assert q.nodes[k] in q.nodes;
      DistinctAt(q.nodes, i, k);
    }
    assert Fusible(q, i, j);
  }

  // ----- what each option does -----

  /** Each option turns its pass on, and without it that pass does nothing. */
  lemma EachOption(p: Provider, q: Program)
    ensures Optimize(p, q, Options(false, false, false)) == Some(q)
    ensures Optimize(p, q, Options(true, false, false)) == FoldAll(p, q)
    ensures Optimize(p, q, Options(false, true, false)) == Some(FuseAll(q))
    ensures Optimize(p, q, Options(false, false, true)) == Some(DropAll(q))
    ensures Optimize(p, q, Options(true, true, true)) ==
            match FoldAll(p, q) case None => None case Some(folded) => Some(DropAll(FuseAll(folded)))
  {
  }
}
