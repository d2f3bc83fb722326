/**
 * What a node computes on the CPU backend, said of the text that names its operator, its attributes and the numbers
 * in its tensors.
 */
module CpuNodes {
  import opened Base
  import opened Programs
  import opened GemmSpec
  import opened Gemm
  import opened Products
  import opened CpuProvider

  /** What running a node on the tensors in `env` gives on the CPU backend. */
  function Run(k: Machine, s: Strategy, n: Node, env: Env): Option<Tensor> {
    Fire(CpuBackend(k, s), n, env)
  }

  predicate Reads(n: Node, env: Env, count: nat) {
    |n.inputs| >= count && forall x <- n.inputs :: x in env && Sized(env[x])
  }

  /** The attribute is `v`, or is not there and `v` is its default. */
  predicate IntIs(n: Node, key: string, default: int, v: int) {
    if key in n.attributes then n.attributes[key] == IntValue(v) else v == default
  }

  predicate FloatIs(n: Node, key: string, default: Float32, v: Float32) {
    if key in n.attributes then n.attributes[key] == FloatValue(v) else v == default
  }

  /** The product of some dimensions. */
  function Product(dims: seq<nat>): nat {
    if dims == [] then 1 else dims[0] * Product(dims[1..])
  }

  lemma {:induction false} ProductLast(dims: seq<nat>, d: nat)
    ensures Product(dims + [d]) == Product(dims) * d
  {
    if dims == [] {
      assert [] + [d] == [d] && [d][1..] == [];
    } else {
      assert (dims + [d])[1..] == dims[1..] + [d];
      ProductLast(dims[1..], d);
      assert dims[0] * (Product(dims[1..]) * d) == dims[0] * Product(dims[1..]) * d;
    }
  }

  lemma {:induction false} ElementsIsProduct(dims: seq<nat>)
    ensures Elements(dims) == Product(dims)
  {
    if dims != [] {
      var n := |dims| - 1;
      ElementsIsProduct(dims[..n]);
      ProductLast(dims[..n], dims[n]);
      assert dims == dims[..n] + [dims[n]];
    }
  }

  /** A node named "Flatten" keeps its input's numbers and makes rows of everything before the axis. */
  lemma FlattenNode(k: Machine, s: Strategy, n: Node, env: Env, given: int)
    requires n.opText == "Flatten" && Reads(n, env, 1) && IntIs(n, "axis", 1, given)
    ensures var t := env[n.inputs[0]];
            var axis := if given < 0 then given + |t.shape| else given;
            match Run(k, s, n, env)
            case None => axis < 0 || axis > |t.shape|
            case Some(v) =>
              && 0 <= axis <= |t.shape| && v.data == t.data
              && |v.shape| == 2 && v.shape[0] * v.shape[1] == |t.data|
              && v.shape[0] == if Product(t.shape[..axis]) == 0 then 1 else Product(t.shape[..axis])
  {
    var t := env[n.inputs[0]];
    var axis := if given < 0 then given + |t.shape| else given;
    hide Elements, Product;
    if 0 <= axis <= |t.shape| {
      ElementsIsProduct(t.shape[..axis]);
      FlattenKeepsSize(n.attributes, t);
      TwoDims(FlattenOf(n.attributes, t).value.shape);
    }
  }

  lemma TwoDims(shape: seq<nat>)
    requires |shape| == 2
    ensures Size(shape) == shape[0] * shape[1]
  {
    assert shape[..1] == [shape[0]] && shape[..1][..0] == [];
    assert Elements(shape[..1]) == shape[0];
  }

  /** A node named "Relu" applies the activation to every number. */
  lemma ReluNode(k: Machine, s: Strategy, n: Node, env: Env)
    requires n.opText == "Relu" && Reads(n, env, 1)
    ensures var t := env[n.inputs[0]];
            var r := Run(k, s, n, env);
            && r.Some? && r.value.shape == t.shape && |r.value.data| == |t.data|
            && forall i | 0 <= i < |t.data| :: r.value.data[i] == k.ar.relu(t.data[i])
  {
  }

  /** A node named "Add" adds tensors of the same shape number by number, and refuses others. */
  lemma AddNode(k: Machine, s: Strategy, n: Node, env: Env)
    requires n.opText == "Add" && Reads(n, env, 2)
    ensures var a, b := env[n.inputs[0]], env[n.inputs[1]];
            match Run(k, s, n, env)
            case None => a.shape != b.shape
            case Some(v) =>
              && a.shape == b.shape == v.shape && |a.data| == |b.data| == |v.data|
              && forall i | 0 <= i < |a.data| :: v.data[i] == k.ar.add(a.data[i], b.data[i])
  {
    hide Size;
  }

  /** How a multiplication was asked for. */
  datatype Ask = Ask(transA: int, transB: int, alpha: Float32, beta: Float32)

  predicate Asks(k: Machine, n: Node, c: Ask) {
    && IntIs(n, "transA", 0, c.transA) && IntIs(n, "transB", 0, c.transB)
    && FloatIs(n, "alpha", k.one, c.alpha) && FloatIs(n, "beta", k.one, c.beta)
  }

  function Bias(n: Node, env: Env): seq<Float32>
    requires Reads(n, env, 2)
  {
    if |n.inputs| > 2 then env[n.inputs[2]].data else []
  }

  /** The dimensions of the product: rows, products per element, columns. */
  function Dims(a: Tensor, b: Tensor, c: Ask): (nat, nat, nat)
    requires |a.shape| == 2 && |b.shape| == 2
  {
    (if c.transA != 0 then a.shape[1] else a.shape[0],
     if c.transA != 0 then a.shape[0] else a.shape[1],
     if c.transB != 0 then b.shape[0] else b.shape[1])
  }

  /** Two matrices whose inner dimensions match, and a bias for each column, for each element, or none. */
  predicate Fits(a: Tensor, b: Tensor, bias: seq<Float32>, c: Ask) {
    && |a.shape| == 2 && |b.shape| == 2
    && var (n, k, m) := Dims(a, b, c);
       k == (if c.transB != 0 then b.shape[1] else b.shape[0]) && (|bias| == 0 || |bias| == m || |bias| == n * m)
  }

  /** A node named "Gemm" or "GemmRelu" multiplies its first two inputs when they fit, and refuses others. */
  lemma GemmNodeFits(k: Machine, s: Strategy, n: Node, env: Env, c: Ask)
    requires (n.opText == "Gemm" || n.opText == "GemmRelu") && Reads(n, env, 2) && Asks(k, n, c)
    ensures Run(k, s, n, env).Some? <==> Fits(env[n.inputs[0]], env[n.inputs[1]], Bias(n, env), c)
    ensures Run(k, s, n, env).Some? ==>
              var v := Run(k, s, n, env).value;
              Delivered(k.ar, AsMatrix(env[n.inputs[0]]), AsMatrix(env[n.inputs[1]]), Bias(n, env),
                        Params(c.alpha, c.beta, n.opText == "GemmRelu"), c.transA != 0, c.transB != 0, s, AsMatrix(v))
  {
    var xs := seq(|n.inputs|, i requires 0 <= i < |n.inputs| => env[n.inputs[i]]);
    var a, b := env[n.inputs[0]], env[n.inputs[1]];
    assert n.Op() == if n.opText == "Gemm" then Gemm else GemmRelu;
    assert CallOf(k, n.attributes) == Some(GemmCall(c.transA != 0, c.transB != 0, c.alpha, c.beta));
    assert BiasOf(xs) == Bias(n, env);
    assert xs[0] == a && xs[1] == b;
    FitsMultipliable(a, b, Bias(n, env), c);
    hide Reads, Fits, Asks, Multipliable, CallOf, BiasOf;
    assert Run(k, s, n, env) == GemmOf(k, s, n.attributes, xs, n.opText == "GemmRelu");
    SizedPair(n, env);
    SizedIsFilled(a);
    SizedIsFilled(b);
    GemmDelivers(k, s, n.attributes, xs, n.opText == "GemmRelu");
  }

  lemma SizedPair(n: Node, env: Env)
    requires Reads(n, env, 2)
    ensures Sized(env[n.inputs[0]]) && Sized(env[n.inputs[1]])
  {
  }

  lemma FitsMultipliable(a: Tensor, b: Tensor, bias: seq<Float32>, c: Ask)
    ensures Fits(a, b, bias, c) <==> Multipliable(AsMatrix(a), AsMatrix(b), bias, c.transA != 0, c.transB != 0)
  {
    if |a.shape| == 2 && |b.shape| == 2 {
      var (n, k, m) := Dims(a, b, c);
      OffsetIsProduct(n, m);
    }
  }

  lemma GemmDelivers(k: Machine, s: Strategy, attrs: map<string, Attribute>, xs: seq<Tensor>, fuseRelu: bool)
    requires |xs| >= 2 && CallOf(k, attrs).Some? && AsMatrix(xs[0]).Filled() && AsMatrix(xs[1]).Filled()
    ensures var c := CallOf(k, attrs).value;
            var v := GemmOf(k, s, attrs, xs, fuseRelu);
            && (v.Some? <==> Multipliable(AsMatrix(xs[0]), AsMatrix(xs[1]), BiasOf(xs), c.transA, c.transB))
            && (v.Some? ==> Delivered(k.ar, AsMatrix(xs[0]), AsMatrix(xs[1]), BiasOf(xs),
                                      Params(c.alpha, c.beta, fuseRelu), c.transA, c.transB, s, AsMatrix(v.value)))
  {
    hide CallOf, OrderOf, Resolve, Offset;
    var v := GemmOf(k, s, attrs, xs, fuseRelu);
    if v.Some? {
      var c := CallOf(k, attrs).value;
      var a, b := AsMatrix(xs[0]), AsMatrix(xs[1]);
      MultipliableValid(k.ar, a, b, BiasOf(xs), c.transA, c.transB);
      var g := ProblemOf(k.ar, a, b, c.transA, c.transB);
      var o, prm := OrderOf(g, Resolve(s, g.n, g.k, g.m)), Params(c.alpha, c.beta, fuseRelu);
      RowsOfFinal(g, o, prm, BiasOf(xs), g.n);
      forall x, y | 0 <= x < g.n && 0 <= y < g.m
        ensures Holds(g, v.value.data, x, y, FinalValue(g, o, prm, BiasOf(xs), x, y))
      {
        assert HoldsAt(v.value.data, Offset(x, g.m) + y, FinalValue(g, o, prm, BiasOf(xs), x, y));
      }
    }
  }

  predicate HoldsAt(d: seq<Float32>, place: nat, v: Float32) {
    place < |d| && d[place] == v
  }

  /** The rows of a product, one after another, hold the final values. */
  lemma {:induction false} RowsOfFinal(g: Problem<Float32>, o: Order, prm: Params<Float32>, bias: seq<Float32>,
                                       rows: nat)
    requires g.Valid() && rows <= g.n
    ensures forall x, y | 0 <= x < rows && 0 <= y < g.m ::
              HoldsAt(RowsOf(g, o, prm, bias, rows), Offset(x, g.m) + y, FinalValue(g, o, prm, bias, x, y))
  {
    hide FinalValue;
    if rows > 0 {
      RowsOfFinal(g, o, prm, bias, rows - 1);
      var before, d := RowsOf(g, o, prm, bias, rows - 1), RowsOf(g, o, prm, bias, rows);
      var last := seq(g.m, y requires 0 <= y < g.m => FinalValue(g, o, prm, bias, rows - 1, y));
      assert d == before + last;
      forall x, y | 0 <= x < rows && 0 <= y < g.m
        ensures HoldsAt(d, Offset(x, g.m) + y, FinalValue(g, o, prm, bias, x, y))
      {
        RowsApart(x, rows, g.m);
        if x < rows - 1 {
          RowsApart(x, rows - 1, g.m);
          assert HoldsAt(before, Offset(x, g.m) + y, FinalValue(g, o, prm, bias, x, y));
        } else {
          assert d[Offset(x, g.m) + y] == last[y];
        }
      }
    }
  }

  /**
   * Every number of such a product is the textbook sum over the operands as matrices, `pa` and `pb`, times alpha, plus
   * beta times its bias, and for "GemmRelu" through the activation.
   */
  lemma GemmNode(k: Machine, s: Strategy, n: Node, env: Env, c: Ask, pa: seq<Float32>, pb: seq<Float32>, x: nat, y: nat)
    requires (n.opText == "Gemm" || n.opText == "GemmRelu") && Reads(n, env, 2) && Asks(k, n, c)
    requires s.NaiveStrategy? || (ZeroSkips(k.ar) && (Exact(k.ar) || c.transA != 0 || c.transB == 0))
    requires var a, b := env[n.inputs[0]], env[n.inputs[1]];
             && Fits(a, b, Bias(n, env), c)
             && var (rows, depth, cols) := Dims(a, b, c);
                && Operand(pa, a.data, c.transA != 0, rows, depth) && Operand(pb, b.data, c.transB != 0, depth, cols)
                && x < rows && y < cols
    ensures var (rows, depth, cols) := Dims(env[n.inputs[0]], env[n.inputs[1]], c);
            var r := Run(k, s, n, env);
            && r.Some? && r.value.shape == [rows, cols] && |r.value.data| == rows * cols && x * cols + y < rows * cols
            && r.value.data[x * cols + y] ==
               Finished(k.ar, Params(c.alpha, c.beta, n.opText == "GemmRelu"), Bias(n, env), cols, x, y,
                        Textbook(k.ar, pa, pb, depth, cols, x, y, depth))
  {
    GemmNodeFits(k, s, n, env, c);
    var v := Run(k, s, n, env).value;
    hide Run, Operand, Textbook, Finished, Delivered, Asks;
    ProductEntry(k.ar, AsMatrix(env[n.inputs[0]]), AsMatrix(env[n.inputs[1]]), pa, pb, Bias(n, env),
                 Params(c.alpha, c.beta, n.opText == "GemmRelu"), c.transA != 0, c.transB != 0, s, AsMatrix(v), x, y);
  }

  /** The backend supports the operators of these names and computes nothing for a node of any other. */
  lemma SupportedNames(k: Machine, s: Strategy, n: Node, env: Env)
    ensures CpuBackend(k, s).supports(n.Op()) <==> n.opText in ["Flatten", "Gemm", "Relu", "Add", "GemmRelu"]
    ensures n.opText !in ["Flatten", "Gemm", "Relu", "Add", "GemmRelu"] ==> Run(k, s, n, env) == None
  {
  }

  predicate WrongInt(n: Node, key: string) {
    key in n.attributes && !n.attributes[key].IntValue?
  }

  predicate WrongFloat(n: Node, key: string) {
    key in n.attributes && !n.attributes[key].FloatValue?
  }

  /** A node with an attribute of another kind than its operator reads fails. */
  lemma WrongAttribute(k: Machine, s: Strategy, n: Node, env: Env)
    requires || (n.opText == "Flatten" && WrongInt(n, "axis"))
             || ((n.opText == "Gemm" || n.opText == "GemmRelu")
                 && (WrongInt(n, "transA") || WrongInt(n, "transB") || WrongFloat(n, "alpha") || WrongFloat(n, "beta")))
    ensures Run(k, s, n, env) == None
  {
    hide Multipliable, RowsOf, Resolve, OrderOf;
  }

  /** A node with fewer inputs than its operator takes fails. */
  lemma TooFewInputs(k: Machine, s: Strategy, n: Node, env: Env)
    requires |n.inputs| < if n.opText == "Flatten" || n.opText == "Relu" then 1 else 2
    ensures Run(k, s, n, env) == None
  {
  }
}
