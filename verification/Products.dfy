/**
 * What a product is, position by position: the textbook sum over the stored numbers, and what transposing an
 * operand does to it.
 */
module Products {
  import opened Base
  import opened GemmSpec
  import opened Gemm

  /** What a buffer holds at a place; zero outside it. */
  function Pick<T>(ar: Arith<T>, s: seq<T>, place: int): T {
    if 0 <= place < |s| then s[place] else ar.zero
  }

  /**
   * The first `upto` products of row `i` of an N by K matrix stored by rows with column `j` of a K by M one, added
   * in order, starting from zero.
   */
  function Textbook<T>(ar: Arith<T>, a: seq<T>, b: seq<T>, k: nat, m: nat, i: nat, j: nat, upto: nat): T {
    if upto == 0 then ar.zero
    else ar.add(Textbook(ar, a, b, k, m, i, j, upto - 1),
                ar.mul(Pick(ar, a, i * k + (upto - 1)), Pick(ar, b, (upto - 1) * m + j)))
  }

  lemma {:induction false} NaiveIsTextbook<T>(g: Problem<T>, i: nat, j: nat, upto: nat)
    requires g.Valid() && i < g.n && j < g.m && upto <= g.k && !g.transA && !g.transB
    ensures Naive(g, i, j, upto) == Textbook(g.ar, g.a, g.b, g.k, g.m, i, j, upto)
  {
    hide Offset;
    if upto > 0 {
      NaiveIsTextbook(g, i, j, upto - 1);
      OffsetIsProduct(i, g.k);
      OffsetIsProduct(upto - 1, g.m);
    }
  }

  // ----- transposition -----

  /** `t` holds at row `j`, column `i` what `s`, a matrix of `rows` by `cols`, holds at row `i`, column `j`. */
  ghost predicate Transposes<T>(s: seq<T>, t: seq<T>, rows: nat, cols: nat) {
    && |s| == |t| == rows * cols
    && forall i: nat, j: nat | i < rows && j < cols :: CellTransposed(s, t, rows, cols, i, j)
  }

  predicate CellTransposed<T(==)>(s: seq<T>, t: seq<T>, rows: nat, cols: nat, i: nat, j: nat) {
    && i * cols + j < |s| && j * rows + i < |t|
    && t[j * rows + i] == s[i * cols + j]
  }

  /** The same product from the same entries of op(A) and op(B). */
  ghost predicate SameEntries<T>(g: Problem<T>, h: Problem<T>) {
    && g.Valid() && h.Valid() && g.ar == h.ar && g.n == h.n && g.k == h.k && g.m == h.m
    && (forall i, k | 0 <= i < g.n && 0 <= k < g.k :: AAt(g, i, k) == AAt(h, i, k))
    && forall k, j | 0 <= k < g.k && 0 <= j < g.m :: BAt(g, k, j) == BAt(h, k, j)
  }

  lemma {:induction false} SameNaive<T>(g: Problem<T>, h: Problem<T>, i: nat, j: nat, upto: nat)
    requires SameEntries(g, h) && i < g.n && j < g.m && upto <= g.k
    ensures Naive(g, i, j, upto) == Naive(h, i, j, upto) && Skipping(g, i, j, upto) == Skipping(h, i, j, upto)
  {
    hide AAt, BAt;
    if upto > 0 {
      SameNaive(g, h, i, j, upto - 1);
    }
  }

  lemma {:induction false} SameQuarter<T>(g: Problem<T>, h: Problem<T>, i: nat, j: nat, r: nat, q: nat)
    requires SameEntries(g, h) && i < g.n && j < g.m && r < 4 && 4 * q <= g.k
    ensures Quarter(g, i, j, r, q) == Quarter(h, i, j, r, q)
  {
    hide AAt, BAt;
    if q > 0 {
      SameQuarter(g, h, i, j, r, q - 1);
    }
  }

  lemma {:induction false} SameTail<T>(g: Problem<T>, h: Problem<T>, i: nat, j: nat, q: nat, upto: nat)
    requires SameEntries(g, h) && i < g.n && j < g.m && 4 * q <= upto <= g.k
    ensures Tail(g, i, j, q, upto) == Tail(h, i, j, q, upto)
    decreases upto
  {
    hide AAt, BAt, Quarter;
    if upto > 4 * q {
      SameTail(g, h, i, j, q, upto - 1);
    } else {
      SameQuarter(g, h, i, j, 0, q);
      SameQuarter(g, h, i, j, 1, q);
      SameQuarter(g, h, i, j, 2, q);
      SameQuarter(g, h, i, j, 3, q);
    }
  }

  /** In every order of additions the same entries give the same element. */
  lemma SameValue<T>(g: Problem<T>, h: Problem<T>, o: Order, i: nat, j: nat)
    requires SameEntries(g, h) && i < g.n && j < g.m
    ensures Value(g, o, i, j) == Value(h, o, i, j)
  {
    hide Naive, Skipping, Tail;
    SameNaive(g, h, i, j, g.k);
    SameTail(g, h, i, j, g.k / 4, g.k);
  }

  /** Multiplying by a stored transpose with the flag is multiplying by the matrix without it. */
  lemma TransposedB<T>(g: Problem<T>, bt: seq<T>)
    requires g.Valid() && !g.transB && Transposes(g.b, bt, g.k, g.m)
    ensures SameEntries(g, g.(b := bt, transB := true))
  {
    var h := g.(b := bt, transB := true);
    OffsetIsProduct(g.k, g.m);
    hide Offset;
    forall k, j | 0 <= k < g.k && 0 <= j < g.m ensures BAt(g, k, j) == BAt(h, k, j) {
      OffsetIsProduct(k, g.m);
      OffsetIsProduct(j, g.k);
      assert CellTransposed(g.b, bt, g.k, g.m, k, j);
    }
    forall i, k | 0 <= i < g.n && 0 <= k < g.k ensures AAt(g, i, k) == AAt(h, i, k) {
    }
  }

  lemma TransposedA<T>(g: Problem<T>, at: seq<T>)
    requires g.Valid() && !g.transA && Transposes(g.a, at, g.n, g.k)
    ensures SameEntries(g, g.(a := at, transA := true))
  {
    var h := g.(a := at, transA := true);
    OffsetIsProduct(g.n, g.k);
    hide Offset;
    forall i, k | 0 <= i < g.n && 0 <= k < g.k ensures AAt(g, i, k) == AAt(h, i, k) {
      OffsetIsProduct(i, g.k);
      OffsetIsProduct(k, g.n);
      assert CellTransposed(g.a, at, g.n, g.k, i, k);
    }
    forall k, j | 0 <= k < g.k && 0 <= j < g.m ensures BAt(g, k, j) == BAt(h, k, j) {
    }
  }

  // ----- what the multiplication delivers -----

  /** An element's final value, spelled out. */
  function Finished<T>(ar: Arith<T>, prm: Params<T>, bias: seq<T>, m: nat, x: nat, y: nat, product: T): T {
    var scaled := ar.mul(prm.alpha, product);
    var term := if |bias| == m then Pick(ar, bias, y) else Pick(ar, bias, x * m + y);
    var value := if |bias| == 0 then scaled else ar.add(scaled, ar.mul(prm.beta, term));
    if prm.fuseRelu then ar.relu(value) else value
  }

  lemma FinalIsFinished<T>(g: Problem<T>, prm: Params<T>, bias: seq<T>, x: nat, y: nat, product: T)
    requires x < g.n && y < g.m && (|bias| == 0 || |bias| == g.m || |bias| == Offset(g.n, g.m))
    ensures Final(g, prm, bias, x, y, product) == Finished(g.ar, prm, bias, g.m, x, y, product)
  {
    OffsetIsProduct(x, g.m);
    RowsApart(x, g.n, g.m);
    hide Offset;
  }

  /** The order of additions does not matter, or is the same. */
  ghost predicate OrdersAgree<T(!new)>(g: Problem<T>, h: Problem<T>, s: Strategy) {
    (ZeroSkips(g.ar) && Exact(g.ar)) ||
    OrderOf(g, Resolve(s, g.n, g.k, g.m)) == OrderOf(h, Resolve(s, h.n, h.k, h.m))
  }

  lemma SameResults<T(!new)>(g: Problem<T>, h: Problem<T>, s: Strategy, c: seq<T>, d: seq<T>, prm: Params<T>,
                              bias: seq<T>)
    requires SameEntries(g, h) && OrdersAgree(g, h, s) && |c| == |d| == Offset(g.n, g.m)
    requires RowsFinal(g, c, 0, g.n, OrderOf(g, Resolve(s, g.n, g.k, g.m)), prm, bias)
    requires RowsFinal(h, d, 0, h.n, OrderOf(h, Resolve(s, h.n, h.k, h.m)), prm, bias)
    ensures c == d
  {
    hide RowsFinal, Resolve, SameEntries, OrdersAgree, OrderOf, Offset;
    OffsetIsProduct(g.n, g.m);
    forall t | 0 <= t < |c| ensures c[t] == d[t] {
      var x, y := RowColumn(g.n, g.m, t);
      OffsetIsProduct(x, g.m);
      SameElement(g, h, s, c, d, prm, bias, x, y);
    }
  }

  /** The row and column of a place. */
  lemma RowColumn(n: nat, m: nat, t: nat) returns (x: nat, y: nat)
    requires t < n * m
    ensures x < n && y < m && t == x * m + y
    decreases n
  {
    assert n > 0;
    assert n * m == (n - 1) * m + m;
    if t >= (n - 1) * m {
      return n - 1, t - (n - 1) * m;
    }
    x, y := RowColumn(n - 1, m, t);
  }

  lemma SameElement<T(!new)>(g: Problem<T>, h: Problem<T>, s: Strategy, c: seq<T>, d: seq<T>, prm: Params<T>,
                             bias: seq<T>, x: nat, y: nat)
    requires SameEntries(g, h) && OrdersAgree(g, h, s) && |c| == |d| == Offset(g.n, g.m) && x < g.n && y < g.m
    requires RowsFinal(g, c, 0, g.n, OrderOf(g, Resolve(s, g.n, g.k, g.m)), prm, bias)
    requires RowsFinal(h, d, 0, h.n, OrderOf(h, Resolve(s, h.n, h.k, h.m)), prm, bias)
    ensures Offset(x, g.m) + y < |c| && c[Offset(x, g.m) + y] == d[Offset(x, g.m) + y]
  {
    hide Offset, Resolve, OrderOf, Naive, Skipping, Unrolled;
    var o, p := OrderOf(g, Resolve(s, g.n, g.k, g.m)), OrderOf(h, Resolve(s, h.n, h.k, h.m));
    SameValue(g, h, o, x, y);
    if o != p {
      ExactStrategiesAgree(g, Resolve(s, g.n, g.k, g.m), x, y);
      ExactStrategiesAgree(h, Resolve(s, h.n, h.k, h.m), x, y);
      SameValue(g, h, InOrder, x, y);
    }
    hide SameEntries, Value;
    HeldAt(g, c, x, y, FinalValue(g, o, prm, bias, x, y));
    HeldAt(h, d, x, y, FinalValue(h, p, prm, bias, x, y));
  }

  /** Asking for B transposed gives the product with the transpose of B. */
  lemma TransposedBProduct<T(!new)>(ar: Arith<T>, a: Matrix<T>, b: Matrix<T>, bt: Matrix<T>, bias: seq<T>,
                                    prm: Params<T>, transA: bool, s: Strategy, r: Matrix<T>, q: Matrix<T>)
    requires Delivered(ar, a, b, bias, prm, transA, false, s, r) && Delivered(ar, a, bt, bias, prm, transA, true, s, q)
    requires bt.shape == [b.shape[1], b.shape[0]] && Transposes(b.data, bt.data, b.shape[0], b.shape[1])
    requires OrdersAgree(ProblemOf(ar, a, b, transA, false), ProblemOf(ar, a, bt, transA, true), s)
    ensures r == q
  {
    var g, h := ProblemOf(ar, a, b, transA, false), ProblemOf(ar, a, bt, transA, true);
    TransposedB(g, bt.data);
    assert h == g.(b := bt.data, transB := true);
    hide RowsFinal, Resolve, SameEntries, OrdersAgree, OrderOf, Offset, Transposes;
    SameResults(g, h, s, r.data, q.data, prm, bias);
  }

  /** Asking for A transposed gives the product with the transpose of A. */
  lemma TransposedAProduct<T(!new)>(ar: Arith<T>, a: Matrix<T>, at: Matrix<T>, b: Matrix<T>, bias: seq<T>,
                                    prm: Params<T>, transB: bool, s: Strategy, r: Matrix<T>, q: Matrix<T>)
    requires Delivered(ar, a, b, bias, prm, false, transB, s, r) && Delivered(ar, at, b, bias, prm, true, transB, s, q)
    requires at.shape == [a.shape[1], a.shape[0]] && Transposes(a.data, at.data, a.shape[0], a.shape[1])
    requires OrdersAgree(ProblemOf(ar, a, b, false, transB), ProblemOf(ar, at, b, true, transB), s)
    ensures r == q
  {
    var g, h := ProblemOf(ar, a, b, false, transB), ProblemOf(ar, at, b, true, transB);
    TransposedA(g, at.data);
    assert h == g.(a := at.data, transA := true);
    hide RowsFinal, Resolve, SameEntries, OrdersAgree, OrderOf, Offset, Transposes;
    SameResults(g, h, s, r.data, q.data, prm, bias);
  }

  /** `plain` is the operand as a matrix of `rows` by `cols`, which the call was given transposed or as it is. */
  ghost predicate Operand<T>(plain: seq<T>, given: seq<T>, transposed: bool, rows: nat, cols: nat) {
    if transposed then Transposes(plain, given, rows, cols) else plain == given
  }

  /**
   * Every element of a product is the textbook sum over the operands as matrices, scaled, with its bias, through the
   * activation: for the naive strategy always, for the others if adding a product with zero changes nothing, and,
   * where sums are unrolled, if addition is exact.
   */
  lemma ProductEntry<T(!new)>(ar: Arith<T>, a: Matrix<T>, b: Matrix<T>, pa: seq<T>, pb: seq<T>, bias: seq<T>,
                              prm: Params<T>, transA: bool, transB: bool, s: Strategy, r: Matrix<T>, x: nat, y: nat)
    requires Delivered(ar, a, b, bias, prm, transA, transB, s, r)
    requires s.NaiveStrategy? || (ZeroSkips(ar) && (Exact(ar) || transA || !transB))
    requires var (n, k) := if transA then (a.shape[1], a.shape[0]) else (a.shape[0], a.shape[1]);
             var m := if transB then b.shape[0] else b.shape[1];
             Operand(pa, a.data, transA, n, k) && Operand(pb, b.data, transB, k, m) && x < n && y < m
    ensures var (n, k) := if transA then (a.shape[1], a.shape[0]) else (a.shape[0], a.shape[1]);
            var m := if transB then b.shape[0] else b.shape[1];
            && r.shape == [n, m] && |r.data| == n * m && x * m + y < |r.data|
            && r.data[x * m + y] == Finished(ar, prm, bias, m, x, y, Textbook(ar, pa, pb, k, m, x, y, k))
  {
    var h := ProblemOf(ar, a, b, transA, transB);
    var o := OrderOf(h, Resolve(s, h.n, h.k, h.m));
    OffsetIsProduct(h.n, h.m);
    OffsetIsProduct(x, h.m);
    PlainEntries(h, pa, pb);
    var g := h.(a := pa, b := pb, transA := false, transB := false);
    assert s.NaiveStrategy? ==> o.InOrder?;
    assert o.ByFours? ==> transB && !transA;
    hide Offset, Resolve, Skipping, Naive, Unrolled, Final, Finished, SameEntries, OrderOf, Operand;
    HeldAt(h, r.data, x, y, FinalValue(h, o, prm, bias, x, y));
    SameValue(g, h, o, x, y);
    PlainValue(g, o, x, y);
    FinalIsFinished(h, prm, bias, x, y, Value(h, o, x, y));
  }

  lemma PlainEntries<T>(h: Problem<T>, pa: seq<T>, pb: seq<T>)
    requires h.Valid() && Operand(pa, h.a, h.transA, h.n, h.k) && Operand(pb, h.b, h.transB, h.k, h.m)
    ensures SameEntries(h.(a := pa, b := pb, transA := false, transB := false), h)
  {
    OffsetIsProduct(h.n, h.k);
    OffsetIsProduct(h.k, h.m);
    var g := h.(a := pa, b := pb, transA := false, transB := false);
    var middle := g.(b := h.b, transB := h.transB);
    hide Offset, Transposes;
    if h.transB {
      TransposedB(g, h.b);
    } else {
      SameSelf(g);
    }
    if h.transA {
      TransposedA(middle, h.a);
      assert h == middle.(a := h.a, transA := true);
    } else {
      SameSelf(h);
    }
  }

  lemma SameSelf<T>(g: Problem<T>)
    requires g.Valid()
    ensures SameEntries(g, g)
  {
  }

  lemma PlainValue<T(!new)>(g: Problem<T>, o: Order, x: nat, y: nat)
    requires g.Valid() && x < g.n && y < g.m && !g.transA && !g.transB
    requires o.InOrder? || (ZeroSkips(g.ar) && (o.NoZeros? || Exact(g.ar)))
    ensures Value(g, o, x, y) == Textbook(g.ar, g.a, g.b, g.k, g.m, x, y, g.k)
  {
    hide Skipping, Naive, Unrolled, Textbook;
    NaiveIsTextbook(g, x, y, g.k);
    match o
    case InOrder =>
    case NoZeros => SkippingIsNaive(g, x, y, g.k);
    case ByFours => UnrolledIsNaive(g, x, y);
  }
}
