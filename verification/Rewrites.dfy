/** The optimizer's three rewrites as functions on programs, and what each preserves. */
module Rewrites {
  import opened Base
  import opened Programs

  /** The fused operator is Relu after Gemm, whatever attributes the Relu node carried. */
  ghost predicate Fuses(p: Provider) {
    forall a: map<string, Attribute>, r: map<string, Attribute>, xs: seq<Tensor> :: FusesOn(p, a, r, xs)
  }

  predicate FusesOn(p: Provider, a: map<string, Attribute>, r: map<string, Attribute>, xs: seq<Tensor>) {
    p.compute(GemmRelu, a, xs) ==
    match p.compute(Gemm, a, xs)
    case None => None
    case Some(v) => p.compute(Relu, r, [v])
  }

  /**
   * `q` may stand in for `p`: the same interface, nothing newly named, every graph output still there, and
   * whenever `p` has a value so does `q`, agreeing on all names that remain.
   */
  ghost predicate Refines(p: Provider, a: Program, b: Program) {
    && WellFormed(b) && Acyclic(b.nodes)
    && b.inputs == a.inputs && b.outputs == a.outputs
    && Names(b) <= Names(a)
    && (forall o <- a.outputs | o in Names(a) :: o in Names(b))
    && forall xs: Env, env: Env | Evaluates(p, a, xs, env) :: Evaluates(p, b, xs, Restrict(env, Names(b)))
  }

  lemma RefinesSelf(p: Provider, a: Program)
    requires WellFormed(a) && Acyclic(a.nodes)
    ensures Refines(p, a, a)
  {
    forall xs: Env, env: Env | Evaluates(p, a, xs, env) ensures Evaluates(p, a, xs, Restrict(env, Names(a))) {
      RestrictAll(p, a, xs, env);
    }
  }

  lemma RestrictAll(p: Provider, a: Program, xs: Env, env: Env)
    requires Evaluates(p, a, xs, env)
    ensures Restrict(env, Names(a)) == env
  {
  }

  lemma RefinesTransitive(p: Provider, a: Program, b: Program, c: Program)
    requires Refines(p, a, b) && Refines(p, b, c)
    ensures Refines(p, a, c)
  {
    hide WellFormed, Acyclic, Names, Evaluates;
    forall xs: Env, env: Env | Evaluates(p, a, xs, env) ensures Evaluates(p, c, xs, Restrict(env, Names(c))) {
      var middle := Restrict(env, Names(b));
      assert Evaluates(p, b, xs, middle);
      assert Restrict(middle, Names(c)) == Restrict(env, Names(c));
    }
  }

  // ----- removing a node -----

  lemma InRemoved<T>(s: seq<T>, i: nat, x: T)
    requires i < |s|
    ensures x in RemoveAt(s, i) ==> x in s
    ensures x in s && x != s[i] ==> x in RemoveAt(s, i)
  {
    if x in s && x != s[i] {
      var j :| 0 <= j < |s| && s[j] == x;
      assert RemoveAt(s, i)[if j < i then j else j - 1] == x;
    }
  }

  lemma RemovedNodes(nodes: seq<Node>, i: nat)
    requires i < |nodes| && Distinct(nodes)
    ensures Distinct(RemoveAt(nodes, i))
    ensures forall n :: n in RemoveAt(nodes, i) <==> n in nodes && n != nodes[i]
    ensures OutNames(RemoveAt(nodes, i)) == OutNames(nodes) - {nodes[i].Out()}
  {
    var left := RemoveAt(nodes, i);
    forall j | 0 <= j < |left| ensures left[j] == nodes[if j < i then j else j + 1] {
    }
    forall n ensures n in left <==> n in nodes && n != nodes[i] {
      InRemoved(nodes, i, n);
    }
    forall n | n in left ensures n.Out() != nodes[i].Out() {
    }
  }

  lemma RemovedAcyclic(nodes: seq<Node>, i: nat)
    requires i < |nodes| && Distinct(nodes) && Acyclic(nodes)
    ensures Acyclic(RemoveAt(nodes, i))
  {
    var rank :| Ranked(nodes, rank);
    RemovedNodes(nodes, i);
    assert Ranked(RemoveAt(nodes, i), rank);
  }

  // ----- folding -----

  predicate Constant(p: Provider, q: Program, n: Node) {
    |n.outputs| == 1 && p.supports(n.Op()) && n.inputs != [] && forall x <- n.inputs :: x in q.inits
  }

  /** Replaces a node by an initializer with its value. */
  function FoldNode(q: Program, i: nat, v: Tensor): Program
    requires i < |q.nodes|
  {
    q.(nodes := RemoveAt(q.nodes, i), inits := q.inits[q.nodes[i].Out() := v])
  }

  lemma FoldRefines(p: Provider, q: Program, i: nat, v: Tensor)
    requires WellFormed(q) && Acyclic(q.nodes) && i < |q.nodes| && Constant(p, q, q.nodes[i])
    requires Fire(p, q.nodes[i], q.inits) == Some(v)
    ensures Refines(p, q, FoldNode(q, i, v))
  {
    var n, r := q.nodes[i], FoldNode(q, i, v);
    RemovedNodes(q.nodes, i);
    RemovedAcyclic(q.nodes, i);
    assert n in q.nodes && n.Out() in OutNames(q.nodes);
    assert Names(r) == Names(q);
    forall xs: Env, env: Env | Evaluates(p, q, xs, env) ensures Evaluates(p, r, xs, Restrict(env, Names(r))) {
      FoldEvaluates(p, q, i, v, xs, env);
      assert Restrict(env, Names(r)) == env;
    }
  }

  lemma FoldEvaluates(p: Provider, q: Program, i: nat, v: Tensor, xs: Env, env: Env)
    requires WellFormed(q) && i < |q.nodes| && Constant(p, q, q.nodes[i])
    requires Fire(p, q.nodes[i], q.inits) == Some(v) && Evaluates(p, q, xs, env)
    ensures Evaluates(p, FoldNode(q, i, v), xs, env)
  {
    var n, r := q.nodes[i], FoldNode(q, i, v);
    RemovedNodes(q.nodes, i);
    assert n in q.nodes && n.Out() in OutNames(q.nodes);
    FireDepends(p, n, q.inits, env);
    assert env.Keys == (r.inits + xs).Keys + OutNames(r.nodes);
  }

  // ----- fusing -----

  /** Node `i` is a Relu that is the only reader of Gemm node `j`, whose output the graph does not expose. */
  predicate Fusible(q: Program, i: nat, j: nat) {
    && i < |q.nodes| && j < |q.nodes| && i != j
    && q.nodes[i].Op().Relu? && q.nodes[j].Op().Gemm?
    && |q.nodes[j].outputs| == 1 && q.nodes[i].inputs == [q.nodes[j].Out()]
    && q.nodes[j].Out() !in q.outputs
    && forall k | 0 <= k < |q.nodes| && k != i :: q.nodes[j].Out() !in q.nodes[k].inputs
  }

  function Fused(gemm: Node, relu: Node): Node {
    gemm.(opText := "GemmRelu", outputs := relu.outputs)
  }

  function FuseNodes(q: Program, i: nat, j: nat): Program
    requires i < |q.nodes| && j < |q.nodes|
  {
    q.(nodes := RemoveAt(q.nodes[j := Fused(q.nodes[j], q.nodes[i])], i))
  }

  lemma DistinctAt(nodes: seq<Node>, a: nat, b: nat)
    requires Distinct(nodes) && a < |nodes| && b < |nodes| && a != b
    ensures nodes[a] != nodes[b]
  {
  }

  lemma FusedNodes(q: Program, i: nat, j: nat)
    requires WellFormed(q) && Fusible(q, i, j)
    ensures var r := FuseNodes(q, i, j);
            && (forall n <- r.nodes ::
                  n == Fused(q.nodes[j], q.nodes[i]) || (n in q.nodes && n != q.nodes[i] && n != q.nodes[j]))
            && (forall n <- q.nodes :: n == q.nodes[i] || n == q.nodes[j] || n in r.nodes)
            && Fused(q.nodes[j], q.nodes[i]) in r.nodes
  {
    assert i < |q.nodes| && j < |q.nodes| && i != j && Distinct(q.nodes);
    FusedAt(q, i, j);
    hide *;
    var r := FuseNodes(q, i, j).nodes;
    assert r[if j < i then j else j - 1] == Fused(q.nodes[j], q.nodes[i]);
    forall k | 0 <= k < |r| && r[k] != Fused(q.nodes[j], q.nodes[i])
      ensures r[k] in q.nodes && r[k] != q.nodes[i] && r[k] != q.nodes[j]
    {
      var from := if k < i then k else k + 1;
      DistinctAt(q.nodes, from, i);
      DistinctAt(q.nodes, from, j);
    }
    forall n | n in q.nodes ensures n == q.nodes[i] || n == q.nodes[j] || n in r {
      var k :| 0 <= k < |q.nodes| && q.nodes[k] == n;
      if k != i && k != j {
        var k' := if k < i then k else k - 1;
        assert r[k'] == n;
      }
    }
  }

  /** Where the nodes end up. */
  lemma FusedAt(q: Program, i: nat, j: nat)
    requires i < |q.nodes| && j < |q.nodes| && i != j
    ensures var r := FuseNodes(q, i, j).nodes;
            && |r| == |q.nodes| - 1
            && forall k | 0 <= k < |r| ::
                 var from := if k < i then k else k + 1;
                 r[k] == if from == j then Fused(q.nodes[j], q.nodes[i]) else q.nodes[from]
  {
  }

  lemma FusedNames(q: Program, i: nat, j: nat)
    requires WellFormed(q) && Fusible(q, i, j)
    ensures OutNames(FuseNodes(q, i, j).nodes) == OutNames(q.nodes) - {q.nodes[j].Out()}
  {
    FusedNodes(q, i, j);
    var f, r := Fused(q.nodes[j], q.nodes[i]), FuseNodes(q, i, j);
    assert f.Out() == q.nodes[i].Out();
    forall x | x in OutNames(q.nodes) && x != q.nodes[j].Out() ensures x in OutNames(r.nodes) {
      var n :| n in q.nodes && n.Out() == x;
      assert if n == q.nodes[i] then f.Out() == x && f in r.nodes else n in r.nodes;
    }
    forall x | x in OutNames(r.nodes) ensures x in OutNames(q.nodes) && x != q.nodes[j].Out() {
      var n :| n in r.nodes && n.Out() == x;
      assert if n == f then q.nodes[i] in q.nodes && q.nodes[i].Out() == x else n in q.nodes;
    }
  }

  /** Where a node of the fused program stood before. */
  function From(k: nat, i: nat): nat {
    if k < i then k else k + 1
  }

  lemma FuseFormed(q: Program, i: nat, j: nat)
    requires Formed(q) && Fusible(q, i, j)
    ensures Formed(FuseNodes(q, i, j))
  {
    FusedAt(q, i, j);
    var gemm, relu, r := q.nodes[j], q.nodes[i], FuseNodes(q, i, j);
    assert gemm in q.nodes && relu in q.nodes;
    assert Fused(gemm, relu).Out() == relu.Out();
    forall k | 0 <= k < |r.nodes|
      ensures |r.nodes[k].outputs| == 1 && (r.nodes[k].Out() in r.nodes[k].inputs ==> r.nodes[k].Op().GemmRelu?)
      ensures r.nodes[k].Out() !in r.inits && r.nodes[k].Out() !in r.inputs
    {
      assert q.nodes[From(k, i)] in q.nodes;
    }
    forall a, b | 0 <= a < b < |r.nodes|
      ensures r.nodes[a].name != r.nodes[b].name && r.nodes[a].Out() != r.nodes[b].Out()
    {
      assert From(a, i) < From(b, i);
    }
  }

  lemma FusedRanked(q: Program, i: nat, j: nat, rank: map<string, nat>)
    requires WellFormed(q) && Fusible(q, i, j) && Ranked(q.nodes, rank)
    ensures Ranked(FuseNodes(q, i, j).nodes, rank) && q.nodes[i].Out() !in q.nodes[j].inputs
  {
    var gemm, relu := q.nodes[j], q.nodes[i];
    var f, r := Fused(gemm, relu), FuseNodes(q, i, j);
    FusedNodes(q, i, j);
    assert gemm in q.nodes && relu in q.nodes && gemm.Out() in relu.inputs;
    assert rank[gemm.name] < rank[relu.name];
    assert f.Out() == relu.Out() && f.name == gemm.name && f.inputs == gemm.inputs;
    forall m, n | m in r.nodes && n in r.nodes && m != n && m.Out() in n.inputs ensures rank[m.name] < rank[n.name] {
      var n' := if n == f then gemm else n;
      assert n' in q.nodes && n'.inputs == n.inputs && n'.name == n.name;
      if m == f {
        assert n' != relu || relu.Out() in relu.inputs;
        assert rank[relu.name] < rank[n'.name];
      }
    }
    assert forall n <- r.nodes :: n == f || n in q.nodes;
  }

  lemma FusedWellFormed(q: Program, i: nat, j: nat)
    requires WellFormed(q) && Fusible(q, i, j) && Acyclic(q.nodes)
    ensures WellFormed(FuseNodes(q, i, j)) && Acyclic(FuseNodes(q, i, j).nodes)
  {
    var rank :| Ranked(q.nodes, rank);
    FusedRanked(q, i, j, rank);
    FuseFormed(q, i, j);
    FusedNodes(q, i, j);
    hide Ranked, Distinct, Apart, Fusible, FuseNodes;
    var f := Fused(q.nodes[j], q.nodes[i]);
    assert f.Out() == q.nodes[i].Out();
    forall n | n in FuseNodes(q, i, j).nodes ensures Proper(n) {
      assert n == f || n in q.nodes;
    }
  }

  lemma FusedKeys(p: Provider, q: Program, i: nat, j: nat, xs: Env, env: Env)
    requires WellFormed(q) && Fusible(q, i, j) && Evaluates(p, q, xs, env)
    ensures var after := Restrict(env, Names(FuseNodes(q, i, j)));
            && after.Keys == env.Keys - {q.nodes[j].Out()}
            && after.Keys == (q.inits + xs).Keys + OutNames(FuseNodes(q, i, j).nodes)
  {
    FusedNames(q, i, j);
    assert q.nodes[j] in q.nodes && q.nodes[j].Out() in OutNames(q.nodes);
  }

  lemma FuseEvaluates(p: Provider, q: Program, i: nat, j: nat, xs: Env, env: Env)
    requires WellFormed(q) && Fusible(q, i, j) && Fuses(p) && Evaluates(p, q, xs, env)
    ensures Evaluates(p, FuseNodes(q, i, j), xs, Restrict(env, Names(FuseNodes(q, i, j))))
  {
    var r := FuseNodes(q, i, j);
    var after := Restrict(env, Names(r));
    FusedKeys(p, q, i, j, xs, env);
    FusedNodes(q, i, j);
    hide Fuses, WellFormed, Fusible, FuseNodes;
    forall n | n in r.nodes ensures Fire(p, n, after) == Some(after[n.Out()]) {
      hide Fire;
      FusedNodeFires(p, q, i, j, env, after, n);
    }
  }

  lemma FusedNodeFires(p: Provider, q: Program, i: nat, j: nat, env: Env, after: Env, n: Node)
    requires WellFormed(q) && Fusible(q, i, j) && Fuses(p)
    requires forall m <- q.nodes :: m.Out() in env && Fire(p, m, env) == Some(env[m.Out()])
    requires after.Keys == env.Keys - {q.nodes[j].Out()} && forall x <- after :: after[x] == env[x]
    requires n == Fused(q.nodes[j], q.nodes[i]) || (n in q.nodes && n != q.nodes[i] && n != q.nodes[j])
    ensures n.Out() in after && Fire(p, n, after) == Some(after[n.Out()])
  {
    var gemm, relu := q.nodes[j], q.nodes[i];
    assert gemm in q.nodes && relu in q.nodes;
    if n == Fused(gemm, relu) {
      assert n.Out() == relu.Out();
      FusedFires(p, gemm, relu, env, after);
    } else {
      var k :| 0 <= k < |q.nodes| && q.nodes[k] == n;
      FireDepends(p, n, env, after);
    }
  }

  lemma FusedFires(p: Provider, gemm: Node, relu: Node, env: Env, after: Env)
    requires Fuses(p) && gemm.Op().Gemm? && relu.Op().Relu? && relu.inputs == [gemm.Out()]
    requires gemm.Out() in env && relu.Out() in env
    requires Fire(p, gemm, env) == Some(env[gemm.Out()]) && Fire(p, relu, env) == Some(env[relu.Out()])
    requires forall x <- gemm.inputs :: (x in env <==> x in after) && (x in env ==> after[x] == env[x])
    ensures Fire(p, Fused(gemm, relu), after) == Some(env[relu.Out()])
  {
    var f := Fused(gemm, relu);
    var xs := seq(|gemm.inputs|, i requires 0 <= i < |gemm.inputs| => env[gemm.inputs[i]]);
    FireDepends(p, gemm, env, after);
    assert FusesOn(p, gemm.attributes, relu.attributes, xs);
    assert seq(|relu.inputs|, i requires 0 <= i < |relu.inputs| => env[relu.inputs[i]]) == [env[gemm.Out()]];
    assert seq(|f.inputs|, i requires 0 <= i < |f.inputs| => after[f.inputs[i]]) == xs;
  }

  lemma FuseRefines(p: Provider, q: Program, i: nat, j: nat)
    requires WellFormed(q) && Acyclic(q.nodes) && Fusible(q, i, j) && Fuses(p)
    ensures Refines(p, q, FuseNodes(q, i, j))
  {
    hide Evaluates;
    var r := FuseNodes(q, i, j);
    FusedWellFormed(q, i, j);
    FusedNames(q, i, j);
    forall xs: Env, env: Env | Evaluates(p, q, xs, env) ensures Evaluates(p, r, xs, Restrict(env, Names(r))) {
      FuseEvaluates(p, q, i, j, xs, env);
    }
  }

  // ----- eliminating -----

  function Consumed(q: Program): set<string> {
    (set n <- q.nodes, x <- n.inputs :: x) + (set o <- q.outputs)
  }

  predicate Dead(q: Program, n: Node) {
    forall o <- n.outputs :: o !in Consumed(q)
  }

  function DropNode(q: Program, i: nat): Program
    requires i < |q.nodes|
  {
    q.(nodes := RemoveAt(q.nodes, i))
  }

  lemma DropEvaluates(p: Provider, q: Program, i: nat, xs: Env, env: Env)
    requires WellFormed(q) && i < |q.nodes| && Dead(q, q.nodes[i]) && Evaluates(p, q, xs, env)
    ensures Evaluates(p, DropNode(q, i), xs, Restrict(env, Names(DropNode(q, i))))
  {
    var n, r := q.nodes[i], DropNode(q, i);
    var after := Restrict(env, Names(r));
    RemovedNodes(q.nodes, i);
    assert n in q.nodes && n.Out() in OutNames(q.nodes) && n.Out() in n.outputs;
    assert after.Keys == env.Keys - {n.Out()};
    forall m | m in r.nodes ensures Fire(p, m, after) == Some(after[m.Out()]) {
      assert m in q.nodes;
      FireDepends(p, m, env, after);
    }
  }

  lemma DropRefines(p: Provider, q: Program, i: nat)
    requires WellFormed(q) && Acyclic(q.nodes) && i < |q.nodes| && Dead(q, q.nodes[i])
    ensures Refines(p, q, DropNode(q, i))
  {
    hide Evaluates;
    var r := DropNode(q, i);
    RemovedNodes(q.nodes, i);
    RemovedAcyclic(q.nodes, i);
    assert q.nodes[i] in q.nodes && q.nodes[i].Out() in q.nodes[i].outputs;
    forall xs: Env, env: Env | Evaluates(p, q, xs, env) ensures Evaluates(p, r, xs, Restrict(env, Names(r))) {
      DropEvaluates(p, q, i, xs, env);
    }
  }
}
