/**
 * The CPU backend: what each operator computes on tensors, and that it does so whatever its output buffer held.
 *
 * Arithmetic on stored floats is a parameter.
 */
module CpuProvider {
  import opened Base
  import opened Programs
  import opened GemmSpec
  import opened Gemm
  import opened Sharding
  import Rewrites

  /** The arithmetic of the machine: its operations, the float one and the test of an attribute's truth. */
  datatype Machine = Machine(ar: Arith<Float32>, one: Float32)

  // ----- attributes -----

  function AttrInt(attrs: map<string, Attribute>, key: string, default: int): Option<int> {
    if key !in attrs then Some(default)
    else match attrs[key] case IntValue(v) => Some(v) case _ => None
  }

  function AttrFloat(attrs: map<string, Attribute>, key: string, default: Float32): Option<Float32> {
    if key !in attrs then Some(default)
    else match attrs[key] case FloatValue(f) => Some(f) case _ => None
  }

  // ----- the element-wise operators -----

  function ReluOf(k: Machine, t: Tensor): Tensor {
    Tensor(t.shape, seq(|t.data|, i requires 0 <= i < |t.data| => k.ar.relu(t.data[i])))
  }

  function AddOf(k: Machine, a: Tensor, b: Tensor): Option<Tensor> {
    if a.shape != b.shape || |a.data| != |b.data| then None
    else Some(Tensor(a.shape, seq(|a.data|, i requires 0 <= i < |a.data| => k.ar.add(a.data[i], b.data[i]))))
  }

  /** An output buffer of the right size: the old contents when the shape fits, zeros otherwise. */
  method Buffer(k: Machine, stale: Tensor, shape: seq<nat>, n: nat) returns (buf: array<Float32>)
    ensures fresh(buf) && buf.Length == n
  {
    buf := new Float32[n](_ => k.ar.zero);
    if stale.shape == shape && |stale.data| == n {
      for i := 0 to n {
        buf[i] := stale.data[i];
      }
    }
  }

  method ComputeRelu(k: Machine, input: Tensor, stale: Tensor) returns (output: Tensor)
    ensures output == ReluOf(k, input)
  {
    var buf := Buffer(k, stale, input.shape, |input.data|);
    for i := 0 to |input.data|
      invariant forall j | 0 <= j < i :: buf[j] == k.ar.relu(input.data[j])
    {
      buf[i] := k.ar.relu(input.data[i]);
    }
    return Tensor(input.shape, buf[..]);
  }

  method ComputeAdd(k: Machine, a: Tensor, b: Tensor, stale: Tensor) returns (output: Option<Tensor>)
    ensures output == AddOf(k, a, b)
  {
    if a.shape != b.shape || |a.data| != |b.data| {
      return None;
    }
    var buf := Buffer(k, stale, a.shape, |a.data|);
    for i := 0 to |a.data|
      invariant forall j | 0 <= j < i :: buf[j] == k.ar.add(a.data[j], b.data[j])
    {
      buf[i] := k.ar.add(a.data[i], b.data[i]);
    }
    assert buf[..] == AddOf(k, a, b).value.data;
    return Some(Tensor(a.shape, buf[..]));
  }

  // ----- flattening -----

  function OrOne(n: nat): nat {
    if n == 0 then 1 else n
  }

  /** Everything before the axis becomes rows and the rest columns; the elements stay as they are. */
  function FlattenOf(attrs: map<string, Attribute>, t: Tensor): Option<Tensor> {
    match AttrInt(attrs, "axis", 1)
    case None => None
    case Some(given) =>
      var axis := if given < 0 then given + |t.shape| else given;
      if axis < 0 || axis > |t.shape| then None else
      var outer := OrOne(Elements(t.shape[..axis]));
      Some(Tensor([outer, |t.data| / outer], t.data))
  }

  lemma {:induction false} ElementsSplit(shape: seq<nat>, axis: nat)
    requires axis <= |shape|
    ensures exists inner: nat :: Elements(shape) == Elements(shape[..axis]) * inner
  {
    if axis == |shape| {
      assert shape[..axis] == shape;
      assert Elements(shape) == Elements(shape[..axis]) * 1;
    } else {
      var n := |shape| - 1;
      ElementsSplit(shape[..n], axis);
      assert shape[..n][..axis] == shape[..axis];
      var inner: nat :| Elements(shape[..n]) == Elements(shape[..axis]) * inner;
      assert Elements(shape) == Elements(shape[..axis]) * inner * shape[n];
      assert Elements(shape) == Elements(shape[..axis]) * (inner * shape[n]);
    }
  }

  /** The flattened shape has room for exactly the elements there are. */
  lemma FlattenKeepsSize(attrs: map<string, Attribute>, t: Tensor)
    requires |t.data| == Size(t.shape) && FlattenOf(attrs, t).Some?
    ensures var f := FlattenOf(attrs, t).value; |f.data| == Size(f.shape) && f.data == t.data
  {
    var f := FlattenOf(attrs, t).value;
    var given := AttrInt(attrs, "axis", 1).value;
    var axis := if given < 0 then given + |t.shape| else given;
    ElementsSplit(t.shape, axis);
    var all, before := Elements(t.shape), Elements(t.shape[..axis]);
    var inner: nat :| all == before * inner;
    assert f.shape[..1] == [OrOne(before)] && f.shape[..1][..0] == [];
    assert Elements(f.shape[..1]) == OrOne(before);
    Divides(before, inner, |t.data|);
  }

  lemma Divides(before: nat, inner: nat, n: nat)
    requires n == 0 || n == before * inner
    ensures OrOne(before) * (n / OrOne(before)) == n
  {
    if before > 0 && n > 0 {
      Divided(n, before, inner, 0);
    }
  }

  /** The product of the dimensions before the axis. */
  method DimsBefore(shape: seq<nat>, axis: nat) returns (outer: nat)
    requires axis <= |shape|
    ensures outer == Elements(shape[..axis])
  {
    outer := 1;
    for i := 0 to axis
      invariant outer == Elements(shape[..i])
    {
      assert shape[..i + 1][..i] == shape[..i];
      outer := outer * shape[i];
    }
  }

  method CopyInto(k: Machine, stale: Tensor, shape: seq<nat>, data: seq<Float32>) returns (out: seq<Float32>)
    ensures out == data
  {
    var buf := Buffer(k, stale, shape, |data|);
    for i := 0 to |data|
      invariant buf[..i] == data[..i]
    {
      buf[i] := data[i];
    }
    return buf[..];
  }

  method ComputeFlatten(k: Machine, attrs: map<string, Attribute>, input: Tensor, stale: Tensor)
        returns (output: Option<Tensor>)
    ensures output == FlattenOf(attrs, input)
  {
    hide Elements;
    var given := AttrInt(attrs, "axis", 1);
    if given.None? {
      return None;
    }
    var axis := given.value;
    if axis < 0 {
      axis := axis + |input.shape|;
    }
    if axis < 0 || axis > |input.shape| {
      return None;
    }
    var outer := DimsBefore(input.shape, axis);
    if outer == 0 {
      outer := 1;
    }
    var inner := |input.data| / outer;
    var data := CopyInto(k, stale, [outer, inner], input.data);
    return Some(Tensor([outer, inner], data));
  }

  // ----- matrix multiplication -----

  function AsMatrix(t: Tensor): Matrix<Float32> {
    Matrix(t.shape, t.data)
  }

  /** The first `rows` rows of a product, one after another. */
  function RowsOf<T(==)>(g: Problem<T>, o: Order, prm: Params<T>, bias: seq<T>, rows: nat): (d: seq<T>)
    requires g.Valid() && rows <= g.n
    ensures |d| == Offset(rows, g.m)
  {
    if rows == 0 then []
    else RowsOf(g, o, prm, bias, rows - 1)
         + seq(g.m, y requires 0 <= y < g.m => FinalValue(g, o, prm, bias, rows - 1, y))
  }

  /** A buffer whose rows are final is the product. */
  lemma {:induction false} FinalRows<T>(g: Problem<T>, o: Order, prm: Params<T>, bias: seq<T>, c: seq<T>, rows: nat)
    requires g.Valid() && rows <= g.n && |c| == Offset(g.n, g.m) && RowsFinal(g, c, 0, g.n, o, prm, bias)
    ensures Offset(rows, g.m) <= |c| && c[..Offset(rows, g.m)] == RowsOf(g, o, prm, bias, rows)
  {
    hide FinalValue;
    if rows > 0 {
      var r := rows - 1;
      FinalRows(g, o, prm, bias, c, r);
      RowsApart(r, g.n, g.m);
      var row := seq(g.m, y requires 0 <= y < g.m => FinalValue(g, o, prm, bias, r, y));
      forall y | 0 <= y < g.m ensures c[Offset(r, g.m) + y] == row[y] {
        assert Holds(g, c, r, y, FinalValue(g, o, prm, bias, r, y));
      }
      assert c[..Offset(rows, g.m)] == c[..Offset(r, g.m)] + row;
    }
  }

  datatype GemmCall = GemmCall(transA: bool, transB: bool, alpha: Float32, beta: Float32)

  function CallOf(k: Machine, attrs: map<string, Attribute>): Option<GemmCall> {
    match AttrInt(attrs, "transA", 0) case None => None case Some(ta) =>
    match AttrInt(attrs, "transB", 0) case None => None case Some(tb) =>
    match AttrFloat(attrs, "alpha", k.one) case None => None case Some(alpha) =>
    match AttrFloat(attrs, "beta", k.one) case None => None case Some(beta) =>
      Some(GemmCall(ta != 0, tb != 0, alpha, beta))
  }

  function BiasOf(xs: seq<Tensor>): seq<Float32> {
    if |xs| > 2 then xs[2].data else []
  }

  /** The product of the first two tensors with the third as bias. */
  function GemmOf(k: Machine, s: Strategy, attrs: map<string, Attribute>, xs: seq<Tensor>,
                  fuseRelu: bool): Option<Tensor> {
    if |xs| < 2 then None else
    match CallOf(k, attrs) case None => None case Some(call) =>
      var a, b, bias := AsMatrix(xs[0]), AsMatrix(xs[1]), BiasOf(xs);
      if !Multipliable(a, b, bias, call.transA, call.transB) || !a.Filled() || !b.Filled() then None else
      MultipliableValid(k.ar, a, b, bias, call.transA, call.transB);
      var g := ProblemOf(k.ar, a, b, call.transA, call.transB);
      var o := OrderOf(g, Resolve(s, g.n, g.k, g.m));
      Some(Tensor([g.n, g.m], RowsOf(g, o, Params(call.alpha, call.beta, fuseRelu), bias, g.n)))
  }

  /** The kernel delivers the product, for every number of workers and whatever the output buffer held. */
  method ComputeGemm(k: Machine, s: Strategy, attrs: map<string, Attribute>, xs: seq<Tensor>, fuseRelu: bool,
                     stale: Tensor, workers: nat, inside: bool) returns (output: Option<Tensor>)
    requires AsMatrix(stale).Filled()
    ensures output == GemmOf(k, s, attrs, xs, fuseRelu)
  {
    hide RowsFinal, OrderOf, Resolve, Offset;
    if |xs| < 2 {
      return None;
    }
    var call := CallOf(k, attrs);
    if call.None? {
      return None;
    }
    var a, b := AsMatrix(xs[0]), AsMatrix(xs[1]);
    if !a.Filled() || !b.Filled() {
      return None;
    }
    var prm := Params(call.value.alpha, call.value.beta, fuseRelu);
    var r := Compute(k.ar, a, b, BiasOf(xs), prm, call.value.transA, call.value.transB, s, AsMatrix(stale),
                     workers, inside);
    if r.Err? {
      return None;
    }
    ghost var g := ProblemOf(k.ar, a, b, call.value.transA, call.value.transB);
    FinalRows(g, OrderOf(g, Resolve(s, g.n, g.k, g.m)), prm, BiasOf(xs), r.value.data, g.n);
    assert r.value.data[..|r.value.data|] == r.value.data;
    return Some(Tensor(r.value.shape, r.value.data));
  }

  // ----- dispatch -----

  /** What the provider computes for an operator; nothing where it throws. */
  function ComputeOf(k: Machine, s: Strategy, op: OpType, attrs: map<string, Attribute>,
                     xs: seq<Tensor>): Option<Tensor> {
    match op
    case Flatten => if |xs| < 1 then None else FlattenOf(attrs, xs[0])
    case Gemm => GemmOf(k, s, attrs, xs, false)
    case GemmRelu => GemmOf(k, s, attrs, xs, true)
    case Relu => if |xs| < 1 then None else Some(ReluOf(k, xs[0]))
    case Add => if |xs| < 2 then None else AddOf(k, xs[0], xs[1])
    case Unknown => None
  }

  function CpuBackend(k: Machine, s: Strategy): Provider {
    Provider((op: OpType) => !op.Unknown?,
      (op: OpType, attrs: map<string, Attribute>, xs: seq<Tensor>) => ComputeOf(k, s, op, attrs, xs))
  }

  /** The provider's result depends neither on the output buffer nor on the threads. */
  method ComputeNode(k: Machine, s: Strategy, op: OpType, attrs: map<string, Attribute>, xs: seq<Tensor>, stale: Tensor,
                     workers: nat, inside: bool) returns (output: Option<Tensor>)
    requires AsMatrix(stale).Filled()
    ensures output == CpuBackend(k, s).compute(op, attrs, xs)
  {
    hide FlattenOf, GemmOf, ReluOf, AddOf;
    match op
    case Flatten =>
      if |xs| < 1 { return None; }
      output := ComputeFlatten(k, attrs, xs[0], stale);
    case Gemm => output := ComputeGemm(k, s, attrs, xs, false, stale, workers, inside);
    case GemmRelu => output := ComputeGemm(k, s, attrs, xs, true, stale, workers, inside);
    case Relu =>
      if |xs| < 1 { return None; }
      var r := ComputeRelu(k, xs[0], stale);
      output := Some(r);
    case Add =>
      if |xs| < 2 { return None; }
      output := ComputeAdd(k, xs[0], xs[1], stale);
    case Unknown => output := None;
  }

  // ----- the fused operator -----

  lemma {:induction false} FusedRows(g: Problem<Float32>, o: Order, alpha: Float32, beta: Float32, bias: seq<Float32>,
                                     rows: nat)
    requires g.Valid() && rows <= g.n
    ensures var plain := RowsOf(g, o, Params(alpha, beta, false), bias, rows);
            var fused := RowsOf(g, o, Params(alpha, beta, true), bias, rows);
            |plain| == |fused| && forall i | 0 <= i < |plain| :: fused[i] == g.ar.relu(plain[i])
  {
    hide Value;
    if rows > 0 {
      FusedRows(g, o, alpha, beta, bias, rows - 1);
    }
  }

  /** On the CPU backend the fused operator is Relu after Gemm, bit for bit. */
  lemma CpuFuses(k: Machine, s: Strategy)
    ensures Rewrites.Fuses(CpuBackend(k, s))
  {
    var p := CpuBackend(k, s);
    forall attrs: map<string, Attribute>, r: map<string, Attribute>, xs: seq<Tensor>
      ensures Rewrites.FusesOn(p, attrs, r, xs)
    {
      FusedProduct(k, s, attrs, xs);
      if GemmOf(k, s, attrs, xs, false).Some? {
        assert [GemmOf(k, s, attrs, xs, false).value][0] == GemmOf(k, s, attrs, xs, false).value;
      }
    }
  }

  lemma FusedProduct(k: Machine, s: Strategy, attrs: map<string, Attribute>, xs: seq<Tensor>)
    ensures GemmOf(k, s, attrs, xs, true) ==
            match GemmOf(k, s, attrs, xs, false) case None => None case Some(t) => Some(ReluOf(k, t))
  {
    hide OrderOf, Resolve, RowsOf, Offset;
    if GemmOf(k, s, attrs, xs, false).Some? {
      var call := CallOf(k, attrs).value;
      var a, b := AsMatrix(xs[0]), AsMatrix(xs[1]);
      MultipliableValid(k.ar, a, b, BiasOf(xs), call.transA, call.transB);
      var g := ProblemOf(k.ar, a, b, call.transA, call.transB);
      FusedRows(g, OrderOf(g, Resolve(s, g.n, g.k, g.m)), call.alpha, call.beta, BiasOf(xs), g.n);
      assert GemmOf(k, s, attrs, xs, true).value.data == ReluOf(k, GemmOf(k, s, attrs, xs, false).value).data;
    }
  }

  /** The kernels refuse an operand that has not been computed yet. */
  lemma EmptyOperandFails(k: Machine, s: Strategy, w: Tensor)
    ensures CpuBackend(k, s).compute(GemmRelu, map[], [Tensor([], []), w]) == None
  {
    hide OrderOf, Resolve, RowsOf, Offset;
  }

  // ----- sizes -----

  lemma MatrixSize(n: nat, m: nat)
    ensures Size([n, m]) == Offset(n, m)
  {
    assert [n, m][..1] == [n] && [n][..0] == [];
    assert Elements([n]) == 1 * n;
    OffsetIsProduct(n, m);
  }

  /** For tensors whose data fills their shape the operators fail only where the source throws. */
  lemma SizedOperands(k: Machine, s: Strategy, attrs: map<string, Attribute>, xs: seq<Tensor>, fuseRelu: bool)
    requires |xs| >= 2 && forall x <- xs :: Sized(x)
    ensures AddOf(k, xs[0], xs[1]).None? <==> xs[0].shape != xs[1].shape
    ensures GemmOf(k, s, attrs, xs, fuseRelu).None? <==>
              match CallOf(k, attrs)
              case None => true
              case Some(call) => !Multipliable(AsMatrix(xs[0]), AsMatrix(xs[1]), BiasOf(xs), call.transA, call.transB)
  {
    hide OrderOf, Resolve, RowsOf, Offset, Size;
    SizedIsFilled(xs[0]);
    SizedIsFilled(xs[1]);
  }

  lemma SizedIsFilled(t: Tensor)
    requires Sized(t)
    ensures AsMatrix(t).Filled()
  {
    if |t.shape| == 2 {
      assert t.shape == [t.shape[0], t.shape[1]];
      MatrixSize(t.shape[0], t.shape[1]);
    }
  }

  /** Every operator of the backend gives a tensor whose data fills its shape. */
  lemma CpuKeepsSizes(k: Machine, s: Strategy)
    ensures KeepsSizes(CpuBackend(k, s))
  {
    var p := CpuBackend(k, s);
    forall op: OpType, attrs: map<string, Attribute>, xs: seq<Tensor> ensures KeepsSizesOn(p, op, attrs, xs) {
      if forall x <- xs :: Sized(x) {
        OperatorKeepsSizes(k, s, op, attrs, xs);
      }
    }
  }

  lemma OperatorKeepsSizes(k: Machine, s: Strategy, op: OpType, attrs: map<string, Attribute>, xs: seq<Tensor>)
    requires forall x <- xs :: Sized(x)
    ensures match ComputeOf(k, s, op, attrs, xs) case None => true case Some(v) => Sized(v)
  {
    hide GemmOf, FlattenOf, Elements;
    assert |xs| > 0 ==> xs[0] in xs;
    match op
    case Flatten =>
      if |xs| > 0 && FlattenOf(attrs, xs[0]).Some? {
        FlattenKeepsSize(attrs, xs[0]);
      }
    case Gemm => GemmKeepsSize(k, s, attrs, xs, false);
    case GemmRelu => GemmKeepsSize(k, s, attrs, xs, true);
    case Relu =>
    case Add =>
    case Unknown =>
  }

  lemma GemmKeepsSize(k: Machine, s: Strategy, attrs: map<string, Attribute>, xs: seq<Tensor>, fuseRelu: bool)
    ensures match GemmOf(k, s, attrs, xs, fuseRelu) case None => true case Some(v) => Sized(v)
  {
    hide OrderOf, Resolve, Offset, Elements;
    if GemmOf(k, s, attrs, xs, fuseRelu).Some? {
      var shape := GemmOf(k, s, attrs, xs, fuseRelu).value.shape;
      MatrixSize(shape[0], shape[1]);
    }
  }
}
