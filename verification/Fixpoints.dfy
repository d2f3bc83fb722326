/** Whether a second run of the optimizer would change anything: each pass runs once, to its own fixpoint. */
module Fixpoints {
  import opened Base
  import opened Programs
  import opened Rewrites
  import opened Passes

  const ALL := Options(true, true, true)

  // ----- every rewrite takes a node away -----

  lemma {:induction false} DropAllShrinks(q: Program)
    ensures |DropAll(q).nodes| <= |q.nodes|
    decreases |q.nodes|
  {
    if FirstDead(q).Some? {
      DropAllShrinks(DropNode(q, FirstDead(q).value));
    }
  }

  lemma {:induction false} FuseAllShrinks(q: Program)
    ensures |FuseAll(q).nodes| <= |q.nodes|
    decreases |q.nodes|
  {
    if FirstFusible(q, 0).Some? {
      var (i, j) := FirstFusible(q, 0).value;
      FuseAllShrinks(FuseNodes(q, i, j));
    }
  }

  lemma {:induction false} FoldAllShrinks(p: Provider, q: Program)
    requires FoldAll(p, q).Some?
    ensures |FoldAll(p, q).value.nodes| <= |q.nodes|
    decreases |q.nodes|
  {
    if FirstConstant(p, q).Some? {
      var i := FirstConstant(p, q).value;
      FoldAllShrinks(p, FoldNode(q, i, Fire(p, q.nodes[i], q.inits).value));
    }
  }

  /** A run that finds something to fold or fuse leaves fewer nodes, or fails. */
  lemma RunShrinks(p: Provider, q: Program)
    requires FirstConstant(p, q).Some? || FirstFusible(q, 0).Some?
    ensures Optimize(p, q, ALL).Some? ==> |Optimize(p, q, ALL).value.nodes| < |q.nodes|
  {
    if Optimize(p, q, ALL).Some? {
      var folded := FoldAll(p, q).value;
      DropAllShrinks(FuseAll(folded));
      FuseAllShrinks(folded);
      if FirstConstant(p, q).Some? {
        var i := FirstConstant(p, q).value;
        FoldAllShrinks(p, FoldNode(q, i, Fire(p, q.nodes[i], q.inits).value));
      } else {
        var (i, j) := FirstFusible(q, 0).value;
        FuseAllShrinks(FuseNodes(q, i, j));
      }
    }
  }

  /** A program without dead nodes is left alone exactly when there is nothing to fold and nothing to fuse. */
  lemma RunAgain(p: Provider, q: Program)
    requires FirstDead(q) == None
    ensures Optimize(p, q, ALL) == Some(q) <==> FirstConstant(p, q) == None && FirstFusible(q, 0) == None
  {
    if FirstConstant(p, q).Some? || FirstFusible(q, 0).Some? {
      RunShrinks(p, q);
    }
  }

  // ----- what the first run leaves for a second -----

  /** Some graph output depends on a node of constant inputs. */
  ghost predicate LeftToFold(p: Provider, f: Program) {
    exists n <- f.nodes :: Live(f, n) && Constant(p, f, n)
  }

  /** The Relu would be the only reader of the Gemm if it were not for nodes no graph output depends on. */
  ghost predicate OnlyLiveReader(f: Program, relu: Node, gemm: Node) {
    && Live(f, relu) && relu.Op().Relu? && gemm.Op().Gemm? && relu.inputs == [gemm.Out()]
    && gemm.Out() !in f.outputs
    && forall n <- f.nodes | n != relu && gemm.Out() in n.inputs :: !Live(f, n)
  }

  ghost predicate LeftToFuse(f: Program) {
    exists relu <- f.nodes, gemm <- f.nodes :: OnlyLiveReader(f, relu, gemm)
  }

  lemma {:induction false} DroppedProgram(f: Program)
    ensures DropAll(f).inits == f.inits && DropAll(f).outputs == f.outputs && DropAll(f).inputs == f.inputs
    ensures FirstDead(DropAll(f)) == None
    ensures forall n <- DropAll(f).nodes :: n in f.nodes
    decreases |f.nodes|
  {
    if FirstDead(f).Some? {
      var i := FirstDead(f).value;
      DroppedProgram(DropNode(f, i));
      forall n | n in DropNode(f, i).nodes ensures n in f.nodes {
        InRemoved(f.nodes, i, n);
      }
    }
  }

  lemma {:induction false} DropAllWellFormed(f: Program)
    requires WellFormed(f)
    ensures WellFormed(DropAll(f))
    decreases |f.nodes|
  {
    if FirstDead(f).Some? {
      RemovedNodes(f.nodes, FirstDead(f).value);
      DropAllWellFormed(DropNode(f, FirstDead(f).value));
    }
  }

  lemma LeftToFoldShows(p: Provider, f: Program)
    requires WellFormed(f) && Acyclic(f.nodes)
    ensures FirstConstant(p, DropAll(f)).Some? <==> LeftToFold(p, f)
  {
    var d := DropAll(f);
    DroppedProgram(f);
    forall n ensures n in d.nodes <==> Live(f, n) {
      DropAllKeepsLive(f, n);
    }
    forall n: Node ensures Constant(p, d, n) <==> Constant(p, f, n) {
    }
    if FirstConstant(p, d).Some? {
      assert d.nodes[FirstConstant(p, d).value] in d.nodes;
    }
  }

  lemma OthersDoNotRead(d: Program, i: nat, j: nat)
    requires Fusible(d, i, j)
    ensures forall n <- d.nodes | n != d.nodes[i] :: d.nodes[j].Out() !in n.inputs
  {
    forall n | n in d.nodes && n != d.nodes[i] ensures d.nodes[j].Out() !in n.inputs {
      var k :| 0 <= k < |d.nodes| && d.nodes[k] == n;
    }
  }

  /** A pair that can be fused once the dead nodes are gone. */
  lemma FusibleShows(f: Program, i: nat, j: nat)
    requires WellFormed(f) && Acyclic(f.nodes) && Fusible(DropAll(f), i, j)
    ensures LeftToFuse(f)
  {
    var d := DropAll(f);
    DroppedProgram(f);
    OthersDoNotRead(d, i, j);
    var relu, gemm := d.nodes[i], d.nodes[j];
    assert relu in d.nodes && gemm in d.nodes;
    assert relu.Op().Relu? && gemm.Op().Gemm? && relu.inputs == [gemm.Out()] && gemm.Out() !in f.outputs;
    hide WellFormed, Acyclic, DropAll, Fusible, Live;
    DropAllKeepsLive(f, relu);
    forall n | n in f.nodes && n != relu && gemm.Out() in n.inputs ensures !Live(f, n) {
      DropAllKeepsLive(f, n);
    }
    assert OnlyLiveReader(f, relu, gemm);
  }

  lemma OnlyReaderFusible(f: Program, relu: Node, gemm: Node)
    requires WellFormed(f) && Acyclic(f.nodes) && gemm in f.nodes && OnlyLiveReader(f, relu, gemm)
    ensures FirstFusible(DropAll(f), 0).Some?
  {
    var d := DropAll(f);
    DroppedProgram(f);
    DropAllWellFormed(f);
    DropAllKeepsLive(f, relu);
    var path: seq<Node> :| Feeds(f, path) && path[0] == relu;
    FeedsLonger(f, gemm, path);
    DropAllKeepsLive(f, gemm);
    var i :| 0 <= i < |d.nodes| && d.nodes[i] == relu;
    var j :| 0 <= j < |d.nodes| && d.nodes[j] == gemm;
    forall k | 0 <= k < |d.nodes| && k != i ensures gemm.Out() !in d.nodes[k].inputs {
      assert d.nodes[k] in d.nodes && d.nodes[k] != relu;
      DropAllKeepsLive(f, d.nodes[k]);
    }
    assert Fusible(d, i, j);
  }

  /**
   * A second run changes something exactly when the folded and fused program holds a live constant node, or a
   * live Relu whose Gemm is otherwise read only by nodes that no graph output depends on.
   */
  lemma SecondRunChanges(p: Provider, q: Program)
    requires WellFormed(q) && Acyclic(q.nodes) && FoldAll(p, q).Some?
    ensures var f := FuseAll(FoldAll(p, q).value);
            var once := Optimize(p, q, ALL);
            once.Some? && (Optimize(p, once.value, ALL) != once <==> LeftToFold(p, f) || LeftToFuse(f))
  {
    FoldAllRefines(p, q);
    var folded := FoldAll(p, q).value;
    RefinesWellFormed(p, q, folded);
    FuseAllWellFormed(folded);
    var f := FuseAll(folded);
    hide FoldAll, FuseAll, WellFormed, Acyclic, Refines;
    DroppedProgram(f);
    RunAgain(p, DropAll(f));
    LeftToFoldShows(p, f);
    if FirstFusible(DropAll(f), 0).Some? {
      var (i, j) := FirstFusible(DropAll(f), 0).value;
      FusibleShows(f, i, j);
    }
    if LeftToFuse(f) {
      var relu, gemm :| relu in f.nodes && gemm in f.nodes && OnlyLiveReader(f, relu, gemm);
      OnlyReaderFusible(f, relu, gemm);
    }
  }

  lemma {:induction false} NothingLeftToFold(p: Provider, q: Program)
    requires WellFormed(q) && Acyclic(q.nodes) && (forall n <- q.nodes :: !Constant(p, q, n))
    requires p.supports(GemmRelu) ==> p.supports(Gemm)
    ensures forall n <- FuseAll(q).nodes :: !Constant(p, FuseAll(q), n)
    decreases |q.nodes|
  {
    if FirstFusible(q, 0).Some? {
      var (i, j) := FirstFusible(q, 0).value;
      var r := FuseNodes(q, i, j);
      FusedWellFormed(q, i, j);
      FusedNodes(q, i, j);
      assert q.nodes[j] in q.nodes;
      forall n | n in r.nodes ensures !Constant(p, r, n) {
        assert n in q.nodes ==> !Constant(p, q, n);
      }
      NothingLeftToFold(p, r);
    }
  }

  /** A provider that supports Gemm if it supports the fused operator has everything folded in one run. */
  lemma OneRunFolds(p: Provider, q: Program)
    requires WellFormed(q) && Acyclic(q.nodes) && FoldAll(p, q).Some?
    requires p.supports(GemmRelu) ==> p.supports(Gemm)
    ensures !LeftToFold(p, FuseAll(FoldAll(p, q).value))
  {
    FoldAllRefines(p, q);
    RefinesWellFormed(p, q, FoldAll(p, q).value);
    NothingLeftToFold(p, FoldAll(p, q).value);
  }

  // ----- a model that needs two runs -----

  const GEMM := Node("g", "Gemm", ["x", "w"], ["h"], map[])
  const RELU := Node("r", "Relu", ["h"], ["y"], map[])
  const DEAD := Node("d", "Add", ["h", "h"], ["z"], map[])

  function Late(w: Tensor): Program {
    Program([GEMM, RELU, DEAD], map["w" := w], ["x"], ["y"])
  }

  lemma LateParts(p: Provider, w: Tensor)
    ensures FirstConstant(p, Late(w)) == None
    ensures FirstFusible(Late(w), 0) == None
    ensures FirstDead(Late(w)) == Some(2)
  {
    var q := Late(w);
    assert GEMM.inputs[0] !in q.inits && RELU.inputs[0] !in q.inits && DEAD.inputs[0] !in q.inits;
    assert q.nodes[0].Out() in q.nodes[2].inputs;
    assert forall i, j | 0 <= i < 3 && 0 <= j < 3 :: !Fusible(q, i, j);
    assert GEMM in q.nodes && RELU in q.nodes && RELU.Out() in q.outputs;
    assert "h" in RELU.inputs;
    assert "h" in Consumed(q) && "y" in Consumed(q) && "z" !in Consumed(q);
    assert GEMM.outputs[0] == "h" && RELU.outputs[0] == "y";
    FirstIndexIs(q.nodes, n => Dead(q, n), 2);
  }

  lemma LateRanked(w: Tensor)
    ensures Acyclic(Late(w).nodes)
  {
    var rank := map["g" := 0, "r" := 1, "d" := 1];
    assert Late(w).nodes == [GEMM, RELU, DEAD];
    forall m, n | m in [GEMM, RELU, DEAD] && n in [GEMM, RELU, DEAD] && m != n && m.Out() in n.inputs
      ensures m == GEMM && n != GEMM
    {
    }
    assert Ranked(Late(w).nodes, rank);
  }

  lemma LateWellFormed(w: Tensor)
    ensures WellFormed(Late(w)) && Acyclic(Late(w).nodes)
  {
    LateRanked(w);
    hide Acyclic;
  }

  /**
   * One run of the passes can leave work for the next: eliminating a second reader makes a Relu fusible, but
   * fusing has already been tried.
   */
  lemma OneRunIsNotEnough(p: Provider, w: Tensor)
    ensures WellFormed(Late(w)) && Acyclic(Late(w).nodes)
    ensures var once := Optimize(p, Late(w), ALL);
            && once.Some? && Optimize(p, once.value, ALL) != once
  {
    LateWellFormed(w);
    LateParts(p, w);
    var q := Late(w);
    var left := DropNode(q, 2);
    assert left.nodes == [GEMM, RELU];
    LateDropped(p, left, w);
    assert Optimize(p, q, ALL) == Some(left);
  }

  lemma {:induction false} LateDropped(p: Provider, left: Program, w: Tensor)
    requires left == Late(w).(nodes := [GEMM, RELU])
    ensures DropAll(left) == left
    ensures Optimize(p, left, ALL) != Some(left)
  {
    assert GEMM in left.nodes && RELU in left.nodes;
    assert "h" in RELU.inputs && "h" in Consumed(left) && "y" in Consumed(left);
    assert GEMM.outputs[0] == "h" && RELU.outputs[0] == "y";
    assert GEMM.inputs[0] !in left.inits && RELU.inputs[0] !in left.inits;
    assert FirstConstant(p, left) == None;
    assert FoldAll(p, left) == Some(left);
    assert Fusible(left, 1, 0);
    assert FirstFusible(left, 0).Some?;
    DropAllShrinks(FuseAll(left));
    var (i, j) := FirstFusible(left, 0).value;
    FuseAllShrinks(FuseNodes(left, i, j));
  }
}
