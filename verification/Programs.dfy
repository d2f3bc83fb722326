/**
 * What a model means: tensors, nodes, and the values its tensor names take.
 *
 * The operators are functions supplied by an execution provider; a failed computation has no value.
 */
module Programs {
  import opened Base

  newtype byte = x: int | 0 <= x < 256

  /** A 32-bit float as its four stored bytes. */
  datatype Float32 = Float32(b0: byte, b1: byte, b2: byte, b3: byte)

  datatype Tensor = Tensor(shape: seq<nat>, data: seq<Float32>)

  function Elements(shape: seq<nat>): nat {
    if shape == [] then 1 else Elements(shape[..|shape| - 1]) * shape[|shape| - 1]
  }

  /** The number of elements of a tensor: none at rank zero. */
  function Size(shape: seq<nat>): nat {
    if shape == [] then 0 else Elements(shape)
  }

  /** The data fills the shape, as it does in every tensor the engine allocates. */
  predicate Sized(t: Tensor) {
    |t.data| == Size(t.shape)
  }

  datatype Attribute = IntValue(value: int) | FloatValue(bits: Float32) | IntsValue(values: seq<int>)

  datatype OpType = Flatten | Gemm | Relu | Add | GemmRelu | Unknown

  function OpFromString(s: string): OpType {
    if s == "Flatten" then Flatten
    else if s == "Gemm" then Gemm
    else if s == "Relu" then Relu
    else if s == "Add" then Add
    else if s == "GemmRelu" then GemmRelu
    else Unknown
  }

  datatype Node = Node(name: string, opText: string, inputs: seq<string>, outputs: seq<string>,
                       attributes: map<string, Attribute>)
  {
    function Op(): OpType {
      OpFromString(opText)
    }

    /** The node's output tensor, when it has just one. */
    function Out(): string {
      if |outputs| == 1 then outputs[0] else []
    }
  }

  datatype Program = Program(nodes: seq<Node>, inits: map<string, Tensor>, inputs: seq<string>, outputs: seq<string>)

  type Env = map<string, Tensor>

  function OutNames(nodes: seq<Node>): set<string> {
    set n <- nodes :: n.Out()
  }

  /** Every tensor a program can give a value to. */
  function Names(p: Program): set<string> {
    p.inits.Keys + (set x <- p.inputs) + OutNames(p.nodes)
  }

  // ----- well-formedness, which the engine relies on but does not check -----

  predicate Distinct(nodes: seq<Node>) {
    forall i, j | 0 <= i < j < |nodes| :: nodes[i].name != nodes[j].name && nodes[i].Out() != nodes[j].Out()
  }

  predicate Proper(n: Node) {
    |n.outputs| == 1 && n.Out() !in n.inputs
  }

  predicate Apart(p: Program) {
    && (forall x <- p.inputs :: x !in p.inits)
    && (forall n <- p.nodes :: n.Out() !in p.inits && n.Out() !in p.inputs)
  }

  predicate WellFormed(p: Program) {
    Distinct(p.nodes) && (forall n <- p.nodes :: Proper(n)) && Apart(p)
  }

  /** Well formed, except that a fused node may read its own output. Rewriting a cyclic model can make such a node. */
  predicate Formed(p: Program) {
    && Distinct(p.nodes) && Apart(p)
    && forall n <- p.nodes :: |n.outputs| == 1 && (n.Out() in n.inputs ==> n.Op().GemmRelu?)
  }

  /** Every producer ranks below its other readers. */
  predicate Ranked(nodes: seq<Node>, rank: map<string, nat>) {
    && (forall n <- nodes :: n.name in rank)
    && forall m <- nodes, n <- nodes | m != n && m.Out() in n.inputs :: rank[m.name] < rank[n.name]
  }

  /** No cycle leads through two nodes or more. */
  ghost predicate Acyclic(nodes: seq<Node>) {
    exists rank: map<string, nat> :: Ranked(nodes, rank)
  }

  /** No node reads its own output or a later node's. */
  predicate Ordered(order: seq<Node>) {
    forall i, j | 0 <= i <= j < |order| :: order[j].Out() !in order[i].inputs
  }

  // ----- values -----

  datatype Provider = Provider(
    supports: OpType -> bool,
    compute: (OpType, map<string, Attribute>, seq<Tensor>) -> Option<Tensor>)

  /** What running one node on the tensors in `env` gives. */
  function Fire(p: Provider, n: Node, env: Env): Option<Tensor> {
    if forall x <- n.inputs :: x in env
    then p.compute(n.Op(), n.attributes, seq(|n.inputs|, i requires 0 <= i < |n.inputs| => env[n.inputs[i]]))
    else None
  }

  /** `env` gives the given tensors their values and every node's output the value of its operator. */
  predicate Solves(p: Provider, nodes: seq<Node>, given: Env, env: Env) {
    && env.Keys == given.Keys + OutNames(nodes)
    && (forall x <- given :: env[x] == given[x])
    && forall n <- nodes :: Fire(p, n, env) == Some(env[n.Out()])
  }

  /** A program's value on inputs `xs`: initializers and inputs are given, the rest follows. */
  predicate Evaluates(p: Provider, q: Program, xs: Env, env: Env) {
    xs.Keys == (set x <- q.inputs) && Solves(p, q.nodes, q.inits + xs, env)
  }

  function Restrict(env: Env, names: set<string>): Env {
    map x <- env | x in names :: env[x]
  }

  lemma FireDepends(p: Provider, n: Node, a: Env, b: Env)
    requires forall x <- n.inputs :: (x in a <==> x in b) && (x in a ==> a[x] == b[x])
    ensures Fire(p, n, a) == Fire(p, n, b)
  {
    if forall x <- n.inputs :: x in a {
      assert seq(|n.inputs|, i requires 0 <= i < |n.inputs| => a[n.inputs[i]])
          == seq(|n.inputs|, i requires 0 <= i < |n.inputs| => b[n.inputs[i]]);
    }
  }

  /** Operators turn tensors of the right size into tensors of the right size. */
  ghost predicate KeepsSizes(p: Provider) {
    forall op: OpType, attrs: map<string, Attribute>, xs: seq<Tensor> :: KeepsSizesOn(p, op, attrs, xs)
  }

  predicate KeepsSizesOn(p: Provider, op: OpType, attrs: map<string, Attribute>, xs: seq<Tensor>) {
    (forall x <- xs :: Sized(x)) ==> match p.compute(op, attrs, xs) case None => true case Some(v) => Sized(v)
  }

  // ----- running the nodes in order -----

  /** The tensors after running `order` one node at a time. */
  function Execute(p: Provider, order: seq<Node>, env: Env): Option<Env> {
    if order == [] then Some(env) else
    var n := |order| - 1;
    match Execute(p, order[..n], env)
    case None => None
    case Some(before) =>
      match Fire(p, order[n], before)
      case None => None
      case Some(v) => Some(before[order[n].Out() := v])
  }

  predicate OutputsApart(order: seq<Node>, given: Env) {
    && (forall i, j | 0 <= i < j < |order| :: order[i].Out() != order[j].Out())
    && forall n <- order :: n.Out() !in given
  }

  lemma OutNamesSnoc(order: seq<Node>)
    requires order != []
    ensures OutNames(order) == OutNames(order[..|order| - 1]) + {order[|order| - 1].Out()}
  {
    var n := |order| - 1;
    assert order == order[..n] + [order[n]];
  }

  /** Running a topological order finds the solution, exactly when there is one. */
  lemma {:induction false} ExecuteSolves(p: Provider, order: seq<Node>, given: Env)
    requires Ordered(order) && OutputsApart(order, given)
    ensures Execute(p, order, given).Some? ==> Solves(p, order, given, Execute(p, order, given).value)
  {
    if order != [] && Execute(p, order, given).Some? {
      var n := |order| - 1;
      ExecuteSolves(p, order[..n], given);
      OutNamesSnoc(order);
      var before, env := Execute(p, order[..n], given).value, Execute(p, order, given).value;
      assert order == order[..n] + [order[n]];
      assert order[n].Out() !in before;
      forall i | 0 <= i <= n ensures Fire(p, order[i], env) == Some(env[order[i].Out()]) {
        FireDepends(p, order[i], before, env);
        if i < n {
          assert order[..n][i] == order[i];
        }
      }
    }
  }

  lemma {:induction false} SolvedExecutes(p: Provider, order: seq<Node>, given: Env, env: Env, upto: nat)
    requires Ordered(order) && OutputsApart(order, given) && Solves(p, order, given, env) && upto <= |order|
    ensures Execute(p, order[..upto], given) == Some(Restrict(env, given.Keys + OutNames(order[..upto])))
  {
    hide Restrict, Fire, OutNames, Solves, Ordered, OutputsApart;
    if upto == 0 {
      assert order[..0] == [];
      NothingComputed(p, order, given, env);
    } else {
      var n := upto - 1;
      SolvedExecutes(p, order, given, env, n);
      ReadsEarlier(p, order, given, env, n);
      assert order[..upto][..n] == order[..n];
      OutNamesSnoc(order[..upto]);
      Computed(p, order, given, env, n);
      RestrictMore(env, given.Keys + OutNames(order[..n]), order[n].Out());
      assert given.Keys + OutNames(order[..n]) + {order[n].Out()} == given.Keys + OutNames(order[..upto]);
    }
  }

  lemma NothingComputed(p: Provider, order: seq<Node>, given: Env, env: Env)
    requires Solves(p, order, given, env)
    ensures Restrict(env, given.Keys + OutNames([])) == given
  {
  }

  lemma Computed(p: Provider, order: seq<Node>, given: Env, env: Env, n: nat)
    requires Solves(p, order, given, env) && n < |order|
    ensures order[n].Out() in env
  {
    assert order[n] in order;
  }

  lemma RestrictMore(env: Env, names: set<string>, x: string)
    requires x in env
    ensures Restrict(env, names)[x := env[x]] == Restrict(env, names + {x})
  {
  }

  /** In a topological order every node finds its inputs among what has been computed. */
  lemma ReadsEarlier(p: Provider, order: seq<Node>, given: Env, env: Env, n: nat)
    requires Ordered(order) && OutputsApart(order, given) && Solves(p, order, given, env) && n < |order|
    ensures Fire(p, order[n], Restrict(env, given.Keys + OutNames(order[..n]))) == Some(env[order[n].Out()])
  {
    var before := Restrict(env, given.Keys + OutNames(order[..n]));
    assert order[n] in order;
    forall x | x in order[n].inputs ensures x in env ==> x in before {
      if x in env && x !in given {
        assert x in OutNames(order);
        var m :| m in order && m.Out() == x;
        var j :| 0 <= j < |order| && order[j] == m;
        assert j < n;
        assert order[..n][j] == m;
      }
    }
    FireDepends(p, order[n], before, env);
  }

  /** A program that can be ordered has at most one solution, and running the order finds it. */
  lemma SolutionIsExecution(p: Provider, order: seq<Node>, given: Env, env: Env)
    requires Ordered(order) && OutputsApart(order, given)
    ensures Solves(p, order, given, env) <==> Execute(p, order, given) == Some(env)
  {
    ExecuteSolves(p, order, given);
    hide Fire, Ordered, OutputsApart, Execute;
    if Solves(p, order, given, env) {
      SolvedExecutes(p, order, given, env, |order|);
      assert order[..|order|] == order;
      assert Restrict(env, given.Keys + OutNames(order)) == env;
    }
  }

  predicate AllSized(env: Env) {
    forall x <- env :: Sized(env[x])
  }

  /** Every tensor of a run fills its shape. */
  lemma {:induction false} ExecuteKeepsSizes(p: Provider, order: seq<Node>, env: Env)
    requires KeepsSizes(p) && AllSized(env) && Execute(p, order, env).Some?
    ensures AllSized(Execute(p, order, env).value)
  {
    hide Size;
    if order != [] {
      var n := order[|order| - 1];
      ExecuteKeepsSizes(p, order[..|order| - 1], env);
      var before := Execute(p, order[..|order| - 1], env).value;
      var xs := seq(|n.inputs|, i requires 0 <= i < |n.inputs| => before[n.inputs[i]]);
      assert KeepsSizesOn(p, n.Op(), n.attributes, xs);
    }
  }
}
