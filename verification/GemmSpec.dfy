/**
 * What the matrix-multiply kernels compute, over numbers of which only named laws are assumed.
 *
 * Floating-point addition is neither associative nor exact, so the order in which products are added is part
 * of what a kernel computes.
 */
module GemmSpec {
  datatype Arith<!T> = Arith(zero: T, add: (T, T) -> T, mul: (T, T) -> T, relu: T -> T)

  /** `C = op(A) * op(B)` for an N by K matrix and a K by M matrix, each stored by rows, possibly transposed. */
  datatype Problem<!T> = Problem(ar: Arith<T>, a: seq<T>, b: seq<T>, n: nat, k: nat, m: nat, transA: bool,
                                 transB: bool) {
    predicate Valid() {
      |a| == Offset(n, k) && |b| == Offset(k, m)
    }
  }

  /** Where row `i` starts in a buffer with rows of length `m`: the product of the two. */
  function Offset(i: nat, m: nat): nat {
    if i == 0 then 0 else Offset(i - 1, m) + m
  }

  lemma {:induction false} OffsetIsProduct(i: nat, m: nat)
    ensures Offset(i, m) == i * m
  {
    if i > 0 {
      OffsetIsProduct(i - 1, m);
      assert i * m == (i - 1) * m + m;
    }
  }

  lemma SameArea(n: nat, m: nat)
    ensures Offset(n, m) == Offset(m, n)
  {
    OffsetIsProduct(n, m);
    OffsetIsProduct(m, n);
    assert n * m == m * n;
  }

  lemma {:induction false} RowsApart(i: nat, k: nat, m: nat)
    requires i < k
    ensures Offset(i, m) + m <= Offset(k, m)
  {
    if i < k - 1 {
      RowsApart(i, k - 1, m);
    }
  }

  function AIndex<T>(g: Problem<T>, i: nat, k: nat): (t: nat)
    requires g.Valid() && i < g.n && k < g.k
    ensures t < |g.a|
  {
    RowsApart(i, g.n, g.k);
    RowsApart(k, g.k, g.n);
    SameArea(g.n, g.k);
    if g.transA then Offset(k, g.n) + i else Offset(i, g.k) + k
  }

  function BIndex<T>(g: Problem<T>, k: nat, j: nat): (t: nat)
    requires g.Valid() && k < g.k && j < g.m
    ensures t < |g.b|
  {
    RowsApart(k, g.k, g.m);
    RowsApart(j, g.m, g.k);
    SameArea(g.m, g.k);
    if g.transB then Offset(j, g.k) + k else Offset(k, g.m) + j
  }

  function AAt<T>(g: Problem<T>, i: nat, k: nat): T
    requires g.Valid() && i < g.n && k < g.k
  {
    g.a[AIndex(g, i, k)]
  }

  function BAt<T>(g: Problem<T>, k: nat, j: nat): T
    requires g.Valid() && k < g.k && j < g.m
  {
    g.b[BIndex(g, k, j)]
  }

  function Product<T>(g: Problem<T>, i: nat, k: nat, j: nat): T
    requires g.Valid() && i < g.n && k < g.k && j < g.m
  {
    g.ar.mul(AAt(g, i, k), BAt(g, k, j))
  }

  // ----- the three ways of adding the products up -----

  /** The first `upto` products added in order. */
  function Naive<T>(g: Problem<T>, i: nat, j: nat, upto: nat): T
    requires g.Valid() && i < g.n && j < g.m && upto <= g.k
  {
    if upto == 0 then g.ar.zero else g.ar.add(Naive(g, i, j, upto - 1), Product(g, i, upto - 1, j))
  }

  /** The same, leaving out the products of a zero element of A. */
  function Skipping<T(==)>(g: Problem<T>, i: nat, j: nat, upto: nat): T
    requires g.Valid() && i < g.n && j < g.m && upto <= g.k
  {
    if upto == 0 then g.ar.zero
    else if AAt(g, i, upto - 1) == g.ar.zero then Skipping(g, i, j, upto - 1)
    else g.ar.add(Skipping(g, i, j, upto - 1), Product(g, i, upto - 1, j))
  }

  /** Every fourth product, starting with the one at `r`, added in order. */
  function Quarter<T>(g: Problem<T>, i: nat, j: nat, r: nat, q: nat): T
    requires g.Valid() && i < g.n && j < g.m && r < 4 && 4 * q <= g.k
  {
    if q == 0 then g.ar.zero else g.ar.add(Quarter(g, i, j, r, q - 1), Product(g, i, 4 * (q - 1) + r, j))
  }

  /** Four interleaved partial sums of `q` products each, joined, and then the products left over. */
  function Tail<T>(g: Problem<T>, i: nat, j: nat, q: nat, upto: nat): T
    requires g.Valid() && i < g.n && j < g.m && 4 * q <= upto <= g.k
    decreases upto
  {
    if upto == 4 * q then Quarters(g, i, j, q)
    else g.ar.add(Tail(g, i, j, q, upto - 1), Product(g, i, upto - 1, j))
  }

  function Unrolled<T>(g: Problem<T>, i: nat, j: nat): T
    requires g.Valid() && i < g.n && j < g.m
  {
    Tail(g, i, j, g.k / 4, g.k)
  }

  function Quarters<T>(g: Problem<T>, i: nat, j: nat, q: nat): T
    requires g.Valid() && i < g.n && j < g.m && 4 * q <= g.k
  {
    g.ar.add(g.ar.add(Quarter(g, i, j, 0, q), Quarter(g, i, j, 1, q)),
      g.ar.add(Quarter(g, i, j, 2, q), Quarter(g, i, j, 3, q)))
  }

  // ----- the laws under which they agree -----

  predicate ZeroAt<T(==)>(ar: Arith<T>, x: T, b: T) {
    ar.add(x, ar.mul(ar.zero, b)) == x
  }

  /** Adding a product with zero changes nothing. */
  ghost predicate ZeroSkips<T(!new)>(ar: Arith<T>) {
    forall x: T, b: T :: ZeroAt(ar, x, b)
  }

  predicate ExactAt<T(==)>(ar: Arith<T>, x: T, y: T, z: T) {
    && ar.add(x, y) == ar.add(y, x)
    && ar.add(ar.add(x, y), z) == ar.add(x, ar.add(y, z))
    && ar.add(x, ar.zero) == x
  }

  /** Addition is exact: commutative, associative, with zero. */
  ghost predicate Exact<T(!new)>(ar: Arith<T>) {
    forall x: T, y: T, z: T :: ExactAt(ar, x, y, z)
  }

  /** Skipping zero multipliers changes no element. */
  lemma {:induction false} SkippingIsNaive<T(!new)>(g: Problem<T>, i: nat, j: nat, upto: nat)
    requires g.Valid() && i < g.n && j < g.m && upto <= g.k && ZeroSkips(g.ar)
    ensures Skipping(g, i, j, upto) == Naive(g, i, j, upto)
  {
    if upto > 0 {
      SkippingIsNaive(g, i, j, upto - 1);
      assert ZeroAt(g.ar, Naive(g, i, j, upto - 1), BAt(g, upto - 1, j));
    }
  }

  /** In exact arithmetic four more products may join four partial sums one each or all at the end. */
  lemma FourMore<T(!new)>(ar: Arith<T>, a: T, b: T, c: T, d: T, p: T, q: T, r: T, s: T)
    requires Exact(ar)
    ensures ar.add(ar.add(ar.add(ar.add(ar.add(ar.add(a, b), ar.add(c, d)), p), q), r), s) ==
            ar.add(ar.add(ar.add(a, p), ar.add(b, q)), ar.add(ar.add(c, r), ar.add(d, s)))
  {
    PairUp(ar, a, b, p, q);
    PairUp(ar, c, d, r, s);
    var ab, cd, pq, rs := ar.add(a, b), ar.add(c, d), ar.add(p, q), ar.add(r, s);
    PairUp(ar, ab, cd, pq, rs);
    var all := ar.add(ab, cd);
    assert ExactAt(ar, all, p, q);
    assert ExactAt(ar, ar.add(all, pq), r, s);
    assert ExactAt(ar, all, pq, rs);
  }

  lemma PairUp<T(!new)>(ar: Arith<T>, a: T, b: T, p: T, q: T)
    requires Exact(ar)
    ensures ar.add(ar.add(a, b), ar.add(p, q)) == ar.add(ar.add(a, p), ar.add(b, q))
  {
    assert ExactAt(ar, a, b, ar.add(p, q));
    assert ExactAt(ar, b, p, q);
    assert ExactAt(ar, p, b, q);
    assert ExactAt(ar, a, p, ar.add(b, q));
  }

  lemma {:induction false} QuartersAreNaive<T(!new)>(g: Problem<T>, i: nat, j: nat, q: nat)
    requires g.Valid() && i < g.n && j < g.m && 4 * q <= g.k && Exact(g.ar)
    ensures Quarters(g, i, j, q) == Naive(g, i, j, 4 * q)
  {
    hide Quarter, Naive, Product, Exact, Offset;
    var ar, t := g.ar, 4 * (q - 1);
    if q == 0 {
      NoQuarters(g, i, j);
    } else {
      QuartersAreNaive(g, i, j, q - 1);
      FourMore(ar, Quarter(g, i, j, 0, q - 1), Quarter(g, i, j, 1, q - 1),
               Quarter(g, i, j, 2, q - 1), Quarter(g, i, j, 3, q - 1),
               Product(g, i, t, j), Product(g, i, t + 1, j), Product(g, i, t + 2, j), Product(g, i, t + 3, j));
      NaiveFour(g, i, j, t);
      QuartersStep(g, i, j, q);
    }
  }

  lemma QuartersStep<T>(g: Problem<T>, i: nat, j: nat, q: nat)
    requires g.Valid() && i < g.n && j < g.m && 4 * q <= g.k && q > 0
    ensures var t := 4 * (q - 1);
            Quarters(g, i, j, q) ==
            g.ar.add(g.ar.add(g.ar.add(Quarter(g, i, j, 0, q - 1), Product(g, i, t, j)),
                              g.ar.add(Quarter(g, i, j, 1, q - 1), Product(g, i, t + 1, j))),
                     g.ar.add(g.ar.add(Quarter(g, i, j, 2, q - 1), Product(g, i, t + 2, j)),
                              g.ar.add(Quarter(g, i, j, 3, q - 1), Product(g, i, t + 3, j))))
  {
  }

  lemma NoQuarters<T(!new)>(g: Problem<T>, i: nat, j: nat)
    requires g.Valid() && i < g.n && j < g.m && Exact(g.ar)
    ensures Quarters(g, i, j, 0) == Naive(g, i, j, 0)
  {
    var ar := g.ar;
    assert ExactAt(ar, ar.zero, ar.zero, ar.zero);
  }

  lemma NaiveFour<T>(g: Problem<T>, i: nat, j: nat, t: nat)
    requires g.Valid() && i < g.n && j < g.m && t + 4 <= g.k
    ensures Naive(g, i, j, t + 4) ==
            g.ar.add(g.ar.add(g.ar.add(g.ar.add(Naive(g, i, j, t), Product(g, i, t, j)), Product(g, i, t + 1, j)),
                              Product(g, i, t + 2, j)), Product(g, i, t + 3, j))
  {
    assert Naive(g, i, j, t + 2) == g.ar.add(Naive(g, i, j, t + 1), Product(g, i, t + 1, j));
    assert Naive(g, i, j, t + 3) == g.ar.add(Naive(g, i, j, t + 2), Product(g, i, t + 2, j));
  }

  lemma {:induction false} TailIsNaive<T(!new)>(g: Problem<T>, i: nat, j: nat, q: nat, upto: nat)
    requires g.Valid() && i < g.n && j < g.m && 4 * q <= upto <= g.k && Exact(g.ar)
    ensures Tail(g, i, j, q, upto) == Naive(g, i, j, upto)
    decreases upto
  {
    hide Offset, Product, Quarters, Exact;
    if upto == 4 * q {
      QuartersAreNaive(g, i, j, q);
    } else {
      TailIsNaive(g, i, j, q, upto - 1);
    }
  }

  /** The unrolled dot product agrees with the plain one in exact arithmetic. */
  lemma UnrolledIsNaive<T(!new)>(g: Problem<T>, i: nat, j: nat)
    requires g.Valid() && i < g.n && j < g.m && Exact(g.ar)
    ensures Unrolled(g, i, j) == Naive(g, i, j, g.k)
  {
    TailIsNaive(g, i, j, g.k / 4, g.k);
  }

  // ----- the output buffer -----

  /** The element in row `i`, column `j` of a buffer with rows of length `m`. */
  function El<T>(c: seq<T>, m: nat, i: nat, j: nat): T
    requires Offset(i, m) + j < |c|
  {
    c[Offset(i, m) + j]
  }

  /** `c` after `a` times the elements `b(lo..hi)` has been added to part of the row that starts at `start`. */
  function Updated<T>(ar: Arith<T>, c: seq<T>, start: nat, lo: nat, hi: nat, a: T, b: nat -> T): (r: seq<T>)
    ensures |r| == |c|
  {
    seq(|c|, t requires 0 <= t < |c| =>
      if start + lo <= t < start + hi then ar.add(c[t], ar.mul(a, b(t - start))) else c[t])
  }

  lemma ElUpdated<T>(ar: Arith<T>, c: seq<T>, rows: nat, m: nat, i: nat, lo: nat, hi: nat, a: T, b: nat -> T, x: nat,
                     y: nat)
    requires i < rows && x < rows && y < m && hi <= m && Offset(rows, m) <= |c|
    ensures Offset(x, m) + y < |c|
    ensures El(Updated(ar, c, Offset(i, m), lo, hi, a, b), m, x, y) ==
            if x == i && lo <= y < hi then ar.add(El(c, m, x, y), ar.mul(a, b(y))) else El(c, m, x, y)
  {
    hide Offset;
    RowsApart(x, rows, m);
    if x < i {
      RowsApart(x, i, m);
    } else if i < x {
      RowsApart(i, x, m);
    }
  }

  /** Only the rows `begin` to `end` may differ. */
  predicate OnlyRows<T(==)>(c: seq<T>, d: seq<T>, m: nat, begin: nat, end: nat) {
    |c| == |d| && forall t | 0 <= t < |c| && (t < Offset(begin, m) || t >= Offset(end, m)) :: c[t] == d[t]
  }

  /** How many products each element has taken in, for the elements of some rows. */
  ghost predicate Progress<T>(g: Problem<T>, c: seq<T>, begin: nat, end: nat, done: (nat, nat) -> nat)
    requires g.Valid() && end <= g.n && Offset(g.n, g.m) <= |c|
  {
    forall x, y | begin <= x < end && 0 <= y < g.m :: ElementDone(g, c, x, y, done(x, y))
  }

  predicate ElementDone<T(==)>(g: Problem<T>, c: seq<T>, x: nat, y: nat, upto: nat)
    requires g.Valid() && x < g.n && y < g.m && Offset(g.n, g.m) <= |c|
  {
    RowsApart(x, g.n, g.m);
    upto <= g.k && El(c, g.m, x, y) == Skipping(g, x, y, upto)
  }

  /** The counts after part of some rows have reached `to`. */
  function Jumped(before: (nat, nat) -> nat, i0: nat, i1: nat, lo: nat, hi: nat, to: nat): (nat, nat) -> nat {
    (x: nat, y: nat) => if i0 <= x < i1 && lo <= y < hi then to else before(x, y)
  }

  lemma SameProgress<T>(g: Problem<T>, c: seq<T>, begin: nat, end: nat, before: (nat, nat) -> nat,
                        after: (nat, nat) -> nat)
    requires g.Valid() && end <= g.n && Offset(g.n, g.m) <= |c| && Progress(g, c, begin, end, before)
    requires forall x, y | begin <= x < end && 0 <= y < g.m :: after(x, y) == before(x, y)
    ensures Progress(g, c, begin, end, after)
  {
    hide ElementDone;
    forall x, y | begin <= x < end && 0 <= y < g.m ensures ElementDone(g, c, x, y, after(x, y)) {
      assert ElementDone(g, c, x, y, before(x, y));
    }
  }

  lemma ElementStep<T>(g: Problem<T>, c: seq<T>, i: nat, k: nat, lo: nat, hi: nat, b: nat -> T, x: nat, y: nat,
                       upto: nat)
    requires g.Valid() && i < g.n && x < g.n && y < g.m && Offset(g.n, g.m) <= |c| && k < g.k && hi <= g.m
    requires ElementDone(g, c, x, y, upto) && (x == i && lo <= y < hi ==> upto == k && b(y) == BAt(g, k, y))
    ensures var a := AAt(g, i, k);
            ElementDone(g, if a == g.ar.zero then c else Updated(g.ar, c, Offset(i, g.m), lo, hi, a, b), x, y,
                        if x == i && lo <= y < hi then k + 1 else upto)
  {
    hide AAt, BAt, El, Updated;
    ElUpdated(g.ar, c, g.n, g.m, i, lo, hi, AAt(g, i, k), b, x, y);
  }

  /** Adding the `k`-th products to part of a row. */
  lemma RowProgress<T>(g: Problem<T>, c: seq<T>, begin: nat, end: nat, before: (nat, nat) -> nat,
                       i: nat, k: nat, lo: nat, hi: nat, b: nat -> T)
    requires g.Valid() && begin <= i < end <= g.n && Offset(g.n, g.m) <= |c| && k < g.k && lo <= hi <= g.m
    requires Progress(g, c, begin, end, before)
    requires forall y | lo <= y < hi :: before(i, y) == k && b(y) == BAt(g, k, y)
    ensures var a := AAt(g, i, k);
            Progress(g, if a == g.ar.zero then c else Updated(g.ar, c, Offset(i, g.m), lo, hi, a, b), begin, end,
                     Jumped(before, i, i + 1, lo, hi, k + 1))
  {
    hide ElementDone, Updated, AAt, BAt;
    var a := AAt(g, i, k);
    var d := if a == g.ar.zero then c else Updated(g.ar, c, Offset(i, g.m), lo, hi, a, b);
    var after := Jumped(before, i, i + 1, lo, hi, k + 1);
    forall x, y | begin <= x < end && 0 <= y < g.m ensures ElementDone(g, d, x, y, after(x, y)) {
      assert ElementDone(g, c, x, y, before(x, y));
      ElementStep(g, c, i, k, lo, hi, b, x, y, before(x, y));
    }
  }
}
