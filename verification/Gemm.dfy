/** The matrix-multiply kernels, each proved to leave in its rows what its order of additions computes. */
module Gemm {
  import opened Base
  import opened GemmSpec
  import opened Sharding

  const TILE: nat := 64

  function Smaller(a: nat, b: nat): nat {
    if a < b then a else b
  }

  // ----- frames -----

  lemma OnlyRowsTransitive<T>(c: seq<T>, d: seq<T>, e: seq<T>, m: nat, begin: nat, end: nat)
    requires OnlyRows(c, d, m, begin, end) && OnlyRows(d, e, m, begin, end)
    ensures OnlyRows(c, e, m, begin, end)
  {
  }

  lemma OnlyRowsWider<T>(c: seq<T>, d: seq<T>, m: nat, i: nat, begin: nat, end: nat)
    requires OnlyRows(c, d, m, i, i + 1) && begin <= i < end
    ensures OnlyRows(c, d, m, begin, end)
  {
    if begin < i { RowsApart(begin, i, m); }
    if i + 1 < end { RowsApart(i + 1, end, m); }
  }

  lemma OtherRow<T>(c: seq<T>, d: seq<T>, m: nat, rows: nat, begin: nat, end: nat, x: nat, y: nat)
    requires OnlyRows(c, d, m, begin, end) && x < rows && y < m && Offset(rows, m) <= |c| && (x < begin || end <= x)
    ensures Offset(x, m) + y < |c| && El(c, m, x, y) == El(d, m, x, y)
  {
    RowsApart(x, rows, m);
    if x < begin { RowsApart(x, begin, m); }
    if end < x { RowsApart(end, x, m); }
    if x < end { RowsApart(x, end, m); }
  }

  // ----- one row of products -----

  /** Row `k` of op(B), as far as it goes. */
  function BRow<T>(g: Problem<T>, k: nat): nat -> T
    requires g.Valid() && k < g.k
  {
    (y: nat) => if y < g.m then BAt(g, k, y) else g.ar.zero
  }

  lemma UpdatedMore<T>(ar: Arith<T>, c: seq<T>, start: nat, lo: nat, j: nat, a: T, b: nat -> T)
    requires lo <= j && start + j < |c|
    ensures Updated(ar, c, start, lo, j, a, b)[start + j] == c[start + j]
    ensures Updated(ar, c, start, lo, j + 1, a, b) ==
            Updated(ar, c, start, lo, j, a, b)[start + j := ar.add(c[start + j], ar.mul(a, b(j)))]
  {
  }

  lemma UpdatedOnly<T>(ar: Arith<T>, c: seq<T>, m: nat, i: nat, lo: nat, hi: nat, a: T, b: nat -> T)
    requires hi <= m
    ensures OnlyRows(c, Updated(ar, c, Offset(i, m), lo, hi, a, b), m, i, i + 1)
  {
  }

  /** Adds `a` times part of a row of op(B) to a row of C. */
  method AddRow<T>(g: Problem<T>, c: array<T>, i: nat, k: nat, a: T, lo: nat, hi: nat)
    requires g.Valid() && i < g.n && k < g.k && lo <= hi <= g.m && c.Length == Offset(g.n, g.m)
    modifies c
    ensures c[..] == Updated(g.ar, old(c[..]), Offset(i, g.m), lo, hi, a, BRow(g, k))
  {
    RowsApart(i, g.n, g.m);
    hide Updated, Offset;
    var crow := Offset(i, g.m);
    ghost var before := c[..];
    NothingUpdated(g.ar, before, crow, lo, a, BRow(g, k));
    if g.transB {
      for j := lo to hi
        invariant c[..] == Updated(g.ar, before, crow, lo, j, a, BRow(g, k))
      {
        UpdatedMore(g.ar, before, crow, lo, j, a, BRow(g, k));
        assert Offset(j, g.k) + k == BIndex(g, k, j);
        c[crow + j] := g.ar.add(c[crow + j], g.ar.mul(a, g.b[Offset(j, g.k) + k]));
      }
    } else {
      for j := lo to hi
        invariant c[..] == Updated(g.ar, before, crow, lo, j, a, BRow(g, k))
      {
        UpdatedMore(g.ar, before, crow, lo, j, a, BRow(g, k));
        assert Offset(k, g.m) + j == BIndex(g, k, j);
        c[crow + j] := g.ar.add(c[crow + j], g.ar.mul(a, g.b[Offset(k, g.m) + j]));
      }
    }
  }

  lemma NothingUpdated<T>(ar: Arith<T>, c: seq<T>, start: nat, lo: nat, a: T, b: nat -> T)
    ensures Updated(ar, c, start, lo, lo, a, b) == c
  {
  }

  /** Adds the `k`-th products to part of row `i`, unless the multiplier is zero. */
  method AddProducts<T(==)>(g: Problem<T>, c: array<T>, i: nat, k: nat, lo: nat, hi: nat,
                            ghost begin: nat, ghost end: nat, ghost before: (nat, nat) -> nat)
    requires g.Valid() && begin <= i < end <= g.n && k < g.k && lo <= hi <= g.m && c.Length == Offset(g.n, g.m)
    requires Progress(g, c[..], begin, end, before) && forall y | lo <= y < hi :: before(i, y) == k
    modifies c
    ensures Progress(g, c[..], begin, end, Jumped(before, i, i + 1, lo, hi, k + 1))
    ensures OnlyRows(old(c[..]), c[..], g.m, begin, end)
  {
    hide Progress, OnlyRows, Updated, Jumped, Offset;
    ghost var was := c[..];
    var a := AAt(g, i, k);
    RowProgress(g, was, begin, end, before, i, k, lo, hi, BRow(g, k));
    if a == g.ar.zero {
      SameRows(was, g.m, begin, end);
      return;
    }
    AddRow(g, c, i, k, a, lo, hi);
    UpdatedOnly(g.ar, was, g.m, i, lo, hi, a, BRow(g, k));
    OnlyRowsWider(was, c[..], g.m, i, begin, end);
  }

  lemma SameRows<T>(c: seq<T>, m: nat, begin: nat, end: nat)
    ensures OnlyRows(c, c, m, begin, end)
  {
  }

  // ----- blocks of products -----

  /** Part of some rows have taken in `from` products each. */
  ghost predicate At(done: (nat, nat) -> nat, i0: nat, i1: nat, lo: nat, hi: nat, from: nat) {
    forall x: nat, y: nat | i0 <= x < i1 && lo <= y < hi :: done(x, y) == from
  }

  /** What every kernel step needs: the problem, its buffer, and where each element has got to. */
  ghost predicate Ready<T>(g: Problem<T>, c: seq<T>, begin: nat, end: nat, done: (nat, nat) -> nat) {
    g.Valid() && begin <= end <= g.n && |c| == Offset(g.n, g.m) && Progress(g, c, begin, end, done)
  }

  lemma JumpNowhere<T>(g: Problem<T>, c: seq<T>, begin: nat, end: nat, done: (nat, nat) -> nat, i0: nat, i1: nat,
                       lo: nat, hi: nat, to: nat)
    requires Ready(g, c, begin, end, done) && (i0 >= i1 || lo >= hi || At(done, i0, i1, lo, hi, to))
    ensures Ready(g, c, begin, end, Jumped(done, i0, i1, lo, hi, to))
  {
    SameProgress(g, c, begin, end, done, Jumped(done, i0, i1, lo, hi, to));
  }

  /** A jump of part of the rows from where another jump has left them. */
  lemma JumpFurther<T>(g: Problem<T>, c: seq<T>, begin: nat, end: nat, done: (nat, nat) -> nat, i0: nat, i1: nat,
                       lo: nat, hi: nat, mid: nat, to: nat)
    requires Ready(g, c, begin, end, Jumped(Jumped(done, i0, i1, lo, hi, mid), i0, i1, lo, hi, to))
    ensures Ready(g, c, begin, end, Jumped(done, i0, i1, lo, hi, to))
  {
    SameProgress(g, c, begin, end, Jumped(Jumped(done, i0, i1, lo, hi, mid), i0, i1, lo, hi, to),
      Jumped(done, i0, i1, lo, hi, to));
  }

  lemma JumpMoreRows<T>(g: Problem<T>, c: seq<T>, begin: nat, end: nat, done: (nat, nat) -> nat, i0: nat, i: nat,
                        i1: nat, lo: nat, hi: nat, to: nat)
    requires i0 <= i <= i1 && Ready(g, c, begin, end, Jumped(Jumped(done, i0, i, lo, hi, to), i, i1, lo, hi, to))
    ensures Ready(g, c, begin, end, Jumped(done, i0, i1, lo, hi, to))
  {
    SameProgress(g, c, begin, end, Jumped(Jumped(done, i0, i, lo, hi, to), i, i1, lo, hi, to),
      Jumped(done, i0, i1, lo, hi, to));
  }

  lemma JumpMoreColumns<T>(g: Problem<T>, c: seq<T>, begin: nat, end: nat, done: (nat, nat) -> nat, i0: nat, i1: nat,
                           lo: nat, j: nat, hi: nat, to: nat)
    requires lo <= j <= hi && Ready(g, c, begin, end, Jumped(Jumped(done, i0, i1, lo, j, to), i0, i1, j, hi, to))
    ensures Ready(g, c, begin, end, Jumped(done, i0, i1, lo, hi, to))
  {
    SameProgress(g, c, begin, end, Jumped(Jumped(done, i0, i1, lo, j, to), i0, i1, j, hi, to),
      Jumped(done, i0, i1, lo, hi, to));
  }

  lemma AtAfterRows(done: (nat, nat) -> nat, i0: nat, i: nat, i1: nat, lo: nat, hi: nat, from: nat, to: nat)
    requires i0 <= i <= i1 && At(done, i0, i1, lo, hi, from)
    ensures At(Jumped(done, i0, i, lo, hi, to), i, i1, lo, hi, from)
  {
  }

  lemma AtAfterColumns(done: (nat, nat) -> nat, i0: nat, i1: nat, lo: nat, j: nat, hi: nat, from: nat, to: nat)
    requires lo <= j <= hi && At(done, i0, i1, lo, hi, from)
    ensures At(Jumped(done, i0, i1, lo, j, to), i0, i1, j, hi, from)
  {
  }

  lemma AtPart(done: (nat, nat) -> nat, i0: nat, i1: nat, lo: nat, hi: nat, from: nat, a: nat, b: nat, p: nat, q: nat)
    requires At(done, i0, i1, lo, hi, from) && i0 <= a && b <= i1 && lo <= p && q <= hi
    ensures At(done, a, b, p, q, from)
  {
  }

  lemma AtJumped(done: (nat, nat) -> nat, i0: nat, i1: nat, lo: nat, hi: nat, to: nat)
    ensures At(Jumped(done, i0, i1, lo, hi, to), i0, i1, lo, hi, to)
  {
  }

  /** Products `kk` to `kMax` of part of one row. */
  method RowBlock<T(==)>(g: Problem<T>, c: array<T>, i: nat, kk: nat, kMax: nat, lo: nat, hi: nat,
                         ghost begin: nat, ghost end: nat, ghost done: (nat, nat) -> nat)
    requires Ready(g, c[..], begin, end, done) && begin <= i < end && kk <= kMax <= g.k && lo <= hi <= g.m
    requires At(done, i, i + 1, lo, hi, kk)
    modifies c
    ensures Ready(g, c[..], begin, end, Jumped(done, i, i + 1, lo, hi, kMax))
    ensures OnlyRows(old(c[..]), c[..], g.m, begin, end)
  {
    hide Progress, OnlyRows, Offset, Jumped;
    ghost var was := c[..];
    SameRows(was, g.m, begin, end);
    JumpNowhere(g, was, begin, end, done, i, i + 1, lo, hi, kk);
    for k := kk to kMax
      invariant Ready(g, c[..], begin, end, Jumped(done, i, i + 1, lo, hi, k)) && OnlyRows(was, c[..], g.m, begin, end)
    {
      ghost var now := c[..];
      AtJumped(done, i, i + 1, lo, hi, k);
      AddProducts(g, c, i, k, lo, hi, begin, end, Jumped(done, i, i + 1, lo, hi, k));
      JumpFurther(g, c[..], begin, end, done, i, i + 1, lo, hi, k, k + 1);
      OnlyRowsTransitive(was, now, c[..], g.m, begin, end);
    }
  }

  /** One tile: a block of rows, of products and of columns. */
  method TileCell<T(==)>(g: Problem<T>, c: array<T>, i0: nat, i1: nat, kk: nat, kMax: nat, lo: nat, hi: nat,
                         ghost begin: nat, ghost end: nat, ghost done: (nat, nat) -> nat)
    requires Ready(g, c[..], begin, end, done) && begin <= i0 <= i1 <= end && kk <= kMax <= g.k && lo <= hi <= g.m
    requires At(done, i0, i1, lo, hi, kk)
    modifies c
    ensures Ready(g, c[..], begin, end, Jumped(done, i0, i1, lo, hi, kMax))
    ensures OnlyRows(old(c[..]), c[..], g.m, begin, end)
  {
    hide Progress, OnlyRows, Offset, Jumped, At;
    ghost var was := c[..];
    SameRows(was, g.m, begin, end);
    JumpNowhere(g, was, begin, end, done, i0, i0, lo, hi, kMax);
    for i := i0 to i1
      invariant Ready(g, c[..], begin, end, Jumped(done, i0, i, lo, hi, kMax)) && OnlyRows(was, c[..], g.m, begin, end)
    {
      ghost var now, before := c[..], Jumped(done, i0, i, lo, hi, kMax);
      AtAfterRows(done, i0, i, i1, lo, hi, kk, kMax);
      AtPart(before, i, i1, lo, hi, kk, i, i + 1, lo, hi);
      RowBlock(g, c, i, kk, kMax, lo, hi, begin, end, before);
      JumpMoreRows(g, c[..], begin, end, done, i0, i, i + 1, lo, hi, kMax);
      OnlyRowsTransitive(was, now, c[..], g.m, begin, end);
    }
  }

  /** The tiles of a block of rows and of products, column block by column block. */
  method TileDepth<T(==)>(g: Problem<T>, c: array<T>, i0: nat, i1: nat, kk: nat, kMax: nat,
                          ghost begin: nat, ghost end: nat, ghost done: (nat, nat) -> nat)
    requires Ready(g, c[..], begin, end, done) && begin <= i0 <= i1 <= end && kk <= kMax <= g.k
    requires At(done, i0, i1, 0, g.m, kk)
    modifies c
    ensures Ready(g, c[..], begin, end, Jumped(done, i0, i1, 0, g.m, kMax))
    ensures OnlyRows(old(c[..]), c[..], g.m, begin, end)
  {
    hide Progress, OnlyRows, Offset, Jumped, At;
    ghost var was := c[..];
    SameRows(was, g.m, begin, end);
    JumpNowhere(g, was, begin, end, done, i0, i1, 0, 0, kMax);
    var jj := 0;
    while jj < g.m
      invariant jj <= g.m
      invariant Ready(g, c[..], begin, end, Jumped(done, i0, i1, 0, jj, kMax)) && OnlyRows(was, c[..], g.m, begin, end)
    {
      ghost var now, before := c[..], Jumped(done, i0, i1, 0, jj, kMax);
      var jMax := Smaller(jj + TILE, g.m);
      AtAfterColumns(done, i0, i1, 0, jj, g.m, kk, kMax);
      AtPart(before, i0, i1, jj, g.m, kk, i0, i1, jj, jMax);
      TileCell(g, c, i0, i1, kk, kMax, jj, jMax, begin, end, before);
      JumpMoreColumns(g, c[..], begin, end, done, i0, i1, 0, jj, jMax, kMax);
      OnlyRowsTransitive(was, now, c[..], g.m, begin, end);
      jj := jMax;
    }
  }

  /** All the products of a block of rows. */
  method TileRows<T(==)>(g: Problem<T>, c: array<T>, i0: nat, i1: nat,
                         ghost begin: nat, ghost end: nat, ghost done: (nat, nat) -> nat)
    requires Ready(g, c[..], begin, end, done) && begin <= i0 <= i1 <= end && At(done, i0, i1, 0, g.m, 0)
    modifies c
    ensures Ready(g, c[..], begin, end, Jumped(done, i0, i1, 0, g.m, g.k))
    ensures OnlyRows(old(c[..]), c[..], g.m, begin, end)
  {
    hide Progress, OnlyRows, Offset, Jumped, At;
    ghost var was := c[..];
    SameRows(was, g.m, begin, end);
    JumpNowhere(g, was, begin, end, done, i0, i1, 0, g.m, 0);
    var kk := 0;
    while kk < g.k
      invariant kk <= g.k
      invariant Ready(g, c[..], begin, end, Jumped(done, i0, i1, 0, g.m, kk)) && OnlyRows(was, c[..], g.m, begin, end)
    {
      ghost var now := c[..];
      var kMax := Smaller(kk + TILE, g.k);
      AtJumped(done, i0, i1, 0, g.m, kk);
      TileDepth(g, c, i0, i1, kk, kMax, begin, end, Jumped(done, i0, i1, 0, g.m, kk));
      JumpFurther(g, c[..], begin, end, done, i0, i1, 0, g.m, kk, kMax);
      OnlyRowsTransitive(was, now, c[..], g.m, begin, end);
      kk := kMax;
    }
  }

  function Nothing(): (nat, nat) -> nat {
    (x: nat, y: nat) => 0
  }

  /** Zeroes the rows of a shard. */
  method ClearRows<T>(g: Problem<T>, c: array<T>, begin: nat, end: nat)
    requires g.Valid() && begin <= end <= g.n && c.Length == Offset(g.n, g.m)
    modifies c
    ensures Ready(g, c[..], begin, end, Nothing()) && OnlyRows(old(c[..]), c[..], g.m, begin, end)
  {
    ghost var was := c[..];
    for i := begin to end
      invariant forall t | 0 <= t < |was| ::
                  c[t] == if Offset(begin, g.m) <= t < Offset(i, g.m) then g.ar.zero else was[t]
    {
      RowsApart(i, g.n, g.m);
      if begin < i { RowsApart(begin, i, g.m); }
      for j := 0 to g.m
        invariant forall t | 0 <= t < |was| ::
                    c[t] == if Offset(begin, g.m) <= t < Offset(i, g.m) + j then g.ar.zero else was[t]
      {
        c[Offset(i, g.m) + j] := g.ar.zero;
      }
    }
    forall x, y | begin <= x < end && 0 <= y < g.m ensures ElementDone(g, c[..], x, y, 0) {
      RowsApart(x, end, g.m);
      RowsApart(x, g.n, g.m);
      if begin < x { RowsApart(begin, x, g.m); }
    }
  }

  /** The blocked kernel. */
  method AccumulateTiled<T(==)>(g: Problem<T>, c: array<T>, begin: nat, end: nat)
    requires g.Valid() && begin <= end <= g.n && c.Length == Offset(g.n, g.m)
    modifies c
    ensures Ready(g, c[..], begin, end, Jumped(Nothing(), begin, end, 0, g.m, g.k))
    ensures OnlyRows(old(c[..]), c[..], g.m, begin, end)
  {
    hide Progress, OnlyRows, Offset, Jumped;
    ghost var was := c[..];
    ClearRows(g, c, begin, end);
    JumpNowhere(g, c[..], begin, end, Nothing(), begin, begin, 0, g.m, g.k);
    var ii := begin;
    while ii < end
      invariant begin <= ii <= end
      invariant Ready(g, c[..], begin, end, Jumped(Nothing(), begin, ii, 0, g.m, g.k)) &&
                OnlyRows(was, c[..], g.m, begin, end)
    {
      ghost var now, before := c[..], Jumped(Nothing(), begin, ii, 0, g.m, g.k);
      var iMax := Smaller(ii + TILE, end);
      AtAfterRows(Nothing(), begin, ii, iMax, 0, g.m, 0, g.k);
      TileRows(g, c, ii, iMax, begin, end, before);
      JumpMoreRows(g, c[..], begin, end, Nothing(), begin, ii, iMax, 0, g.m, g.k);
      OnlyRowsTransitive(was, now, c[..], g.m, begin, end);
      ii := iMax;
    }
  }

  // ----- rows computed one element at a time -----

  /** The order in which a kernel adds an element's products. */
  datatype Order = InOrder | NoZeros | ByFours

  function Value<T(==)>(g: Problem<T>, o: Order, x: nat, y: nat): T
    requires g.Valid() && x < g.n && y < g.m
  {
    match o
    case InOrder => Naive(g, x, y, g.k)
    case NoZeros => Skipping(g, x, y, g.k)
    case ByFours => Unrolled(g, x, y)
  }

  /** The elements of some rows hold their products added in the given order. */
  ghost predicate RowsHold<T>(g: Problem<T>, c: seq<T>, begin: nat, end: nat, o: Order)
    requires g.Valid() && end <= g.n && Offset(g.n, g.m) <= |c|
  {
    forall x, y | begin <= x < end && 0 <= y < g.m :: Holds(g, c, x, y, Value(g, o, x, y))
  }

  ghost predicate Holds<T>(g: Problem<T>, c: seq<T>, x: nat, y: nat, value: T)
    requires x < g.n && y < g.m && Offset(g.n, g.m) <= |c|
  {
    RowsApart(x, g.n, g.m);
    El(c, g.m, x, y) == value
  }

  /** Writing the next element of a row. */
  lemma RowGrows<T>(g: Problem<T>, c: seq<T>, i: nat, j: nat, o: Order)
    requires g.Valid() && i < g.n && j < g.m && Offset(g.n, g.m) <= |c|
    requires forall y | 0 <= y < j :: Holds(g, c, i, y, Value(g, o, i, y))
    ensures Offset(i, g.m) + j < |c|
    ensures var d := c[Offset(i, g.m) + j := Value(g, o, i, j)];
            OnlyRows(c, d, g.m, i, i + 1) && forall y | 0 <= y < j + 1 :: Holds(g, d, i, y, Value(g, o, i, y))
  {
    RowsApart(i, g.n, g.m);
    hide Value, Offset;
    var d := c[Offset(i, g.m) + j := Value(g, o, i, j)];
    forall y | 0 <= y < j + 1 ensures Holds(g, d, i, y, Value(g, o, i, y)) {
      if y < j {
        assert Holds(g, c, i, y, Value(g, o, i, y));
      }
    }
  }

  lemma RowsHoldMore<T>(g: Problem<T>, c: seq<T>, d: seq<T>, begin: nat, i: nat, o: Order)
    requires g.Valid() && begin <= i < g.n && Offset(g.n, g.m) <= |c| && RowsHold(g, c, begin, i, o)
    requires OnlyRows(c, d, g.m, i, i + 1) && RowsHold(g, d, i, i + 1, o)
    ensures RowsHold(g, d, begin, i + 1, o)
  {
    hide Value, Offset;
    forall x, y | begin <= x < i + 1 && 0 <= y < g.m ensures Holds(g, d, x, y, Value(g, o, x, y)) {
      if x < i {
        assert Holds(g, c, x, y, Value(g, o, x, y));
        OtherRow(c, d, g.m, g.n, i, i + 1, x, y);
      }
    }
  }

  /** The textbook dot product of a row and a column. */
  method NaiveDot<T>(g: Problem<T>, i: nat, j: nat) returns (acc: T)
    requires g.Valid() && i < g.n && j < g.m
    ensures acc == Naive(g, i, j, g.k)
  {
    acc := g.ar.zero;
    for k := 0 to g.k
      invariant acc == Naive(g, i, j, k)
    {
      acc := g.ar.add(acc, g.ar.mul(AAt(g, i, k), BAt(g, k, j)));
    }
  }

  /** The dot product with four partial sums. */
  method UnrolledDot<T>(g: Problem<T>, i: nat, j: nat) returns (acc: T)
    requires g.Valid() && i < g.n && j < g.m
    ensures acc == Unrolled(g, i, j)
  {
    hide Product, AAt, BAt, Offset;
    var a0, a1, a2, a3 := g.ar.zero, g.ar.zero, g.ar.zero, g.ar.zero;
    var k := 0;
    ghost var q := 0;
    while k + 4 <= g.k
      invariant k == 4 * q && k <= g.k
      invariant a0 == Quarter(g, i, j, 0, q) && a1 == Quarter(g, i, j, 1, q)
      invariant a2 == Quarter(g, i, j, 2, q) && a3 == Quarter(g, i, j, 3, q)
    {
      a0 := g.ar.add(a0, Term(g, i, k, j));
      a1 := g.ar.add(a1, Term(g, i, k + 1, j));
      a2 := g.ar.add(a2, Term(g, i, k + 2, j));
      a3 := g.ar.add(a3, Term(g, i, k + 3, j));
      k, q := k + 4, q + 1;
    }
    acc := g.ar.add(g.ar.add(a0, a1), g.ar.add(a2, a3));
    hide Quarter;
    while k < g.k
      invariant 4 * q <= k <= g.k < 4 * q + 4 && acc == Tail(g, i, j, q, k)
    {
      acc := g.ar.add(acc, Term(g, i, k, j));
      k := k + 1;
    }
    assert q == g.k / 4;
  }

  function Term<T>(g: Problem<T>, i: nat, k: nat, j: nat): (t: T)
    requires g.Valid() && i < g.n && k < g.k && j < g.m
    ensures t == Product(g, i, k, j)
  {
    g.ar.mul(AAt(g, i, k), BAt(g, k, j))
  }

  method DotRow<T(==)>(g: Problem<T>, c: array<T>, i: nat, unrolled: bool)
    requires g.Valid() && i < g.n && c.Length == Offset(g.n, g.m)
    modifies c
    ensures RowsHold(g, c[..], i, i + 1, if unrolled then ByFours else InOrder)
    ensures OnlyRows(old(c[..]), c[..], g.m, i, i + 1)
  {
    hide OnlyRows, Offset, Holds, Naive, Unrolled;
    ghost var was := c[..];
    SameRows(was, g.m, i, i + 1);
    ghost var v := if unrolled then ByFours else InOrder;
    for j := 0 to g.m
      invariant forall y | 0 <= y < j :: Holds(g, c[..], i, y, Value(g, v, i, y))
      invariant OnlyRows(was, c[..], g.m, i, i + 1)
    {
      var acc;
      if unrolled {
        acc := UnrolledDot(g, i, j);
      } else {
        acc := NaiveDot(g, i, j);
      }
      ghost var now := c[..];
      RowGrows(g, now, i, j, v);
      c[Offset(i, g.m) + j] := acc;
      assert acc == Value(g, v, i, j);
      OnlyRowsTransitive(was, now, c[..], g.m, i, i + 1);
    }
  }

  method AccumulateDots<T(==)>(g: Problem<T>, c: array<T>, begin: nat, end: nat, unrolled: bool)
    requires g.Valid() && begin <= end <= g.n && c.Length == Offset(g.n, g.m)
    modifies c
    ensures RowsHold(g, c[..], begin, end, if unrolled then ByFours else InOrder)
    ensures OnlyRows(old(c[..]), c[..], g.m, begin, end)
  {
    hide OnlyRows, Offset, Holds, Naive, Unrolled;
    ghost var was := c[..];
    SameRows(was, g.m, begin, end);
    ghost var v := if unrolled then ByFours else InOrder;
    for i := begin to end
      invariant RowsHold(g, c[..], begin, i, v) && OnlyRows(was, c[..], g.m, begin, end)
    {
      ghost var now := c[..];
      DotRow(g, c, i, unrolled);
      RowsHoldMore(g, now, c[..], begin, i, v);
      OnlyRowsWider(now, c[..], g.m, i, begin, end);
      OnlyRowsTransitive(was, now, c[..], g.m, begin, end);
    }
  }

  /** The row-by-row kernel: each row is cleared and then takes in its products in order. */
  method AccumulateReordered<T(==)>(g: Problem<T>, c: array<T>, begin: nat, end: nat)
    requires g.Valid() && begin <= end <= g.n && c.Length == Offset(g.n, g.m)
    modifies c
    ensures RowsHold(g, c[..], begin, end, if g.transB && !g.transA then ByFours else NoZeros)
    ensures OnlyRows(old(c[..]), c[..], g.m, begin, end)
  {
    if g.transB && !g.transA {
      AccumulateDots(g, c, begin, end, true);
      return;
    }
    hide OnlyRows, Offset, Holds, Skipping, Progress, Jumped;
    ghost var was := c[..];
    SameRows(was, g.m, begin, end);
    for i := begin to end
      invariant RowsHold(g, c[..], begin, i, NoZeros) && OnlyRows(was, c[..], g.m, begin, end)
    {
      ghost var now := c[..];
      ClearRows(g, c, i, i + 1);
      ghost var cleared := c[..];
      RowBlock(g, c, i, 0, g.k, 0, g.m, i, i + 1, Nothing());
      OnlyRowsTransitive(now, cleared, c[..], g.m, i, i + 1);
      AllIn(g, c[..], i, i + 1);
      RowsHoldMore(g, now, c[..], begin, i, NoZeros);
      OnlyRowsWider(now, c[..], g.m, i, begin, end);
      OnlyRowsTransitive(was, now, c[..], g.m, begin, end);
    }
  }

  /** Elements that have taken in every product hold the kernel's value. */
  lemma AllIn<T>(g: Problem<T>, c: seq<T>, begin: nat, end: nat)
    requires Ready(g, c, begin, end, Jumped(Nothing(), begin, end, 0, g.m, g.k))
    ensures RowsHold(g, c, begin, end, NoZeros)
  {
    forall x, y | begin <= x < end && 0 <= y < g.m ensures Holds(g, c, x, y, Value(g, NoZeros, x, y)) {
      assert ElementDone(g, c, x, y, Jumped(Nothing(), begin, end, 0, g.m, g.k)(x, y));
    }
  }

  // ----- packed tiles -----

  /** A packed buffer with rows of length `width` holds `value` at row `i`, place `k`. */
  ghost predicate CellIs<T>(p: seq<T>, width: nat, i: nat, k: nat, value: T) {
    Offset(i, width) + k < |p| && El(p, width, i, k) == value
  }

  lemma {:induction false} OffsetMono(rows: nat, width: nat, more: nat, wider: nat)
    requires rows <= more && width <= wider
    ensures Offset(rows, width) <= Offset(more, wider)
  {
    if rows > 0 {
      OffsetMono(rows - 1, width, more - 1, wider);
    }
  }

  /** A packed cell lies inside a buffer of TILE rows of TILE. */
  lemma PackedInside(rows: nat, width: nat, i: nat, k: nat)
    requires i < rows <= TILE && k < width <= TILE
    ensures Offset(i, width) + k < Offset(TILE, TILE)
  {
    hide Offset;
    RowsApart(i, rows, width);
    OffsetMono(rows, width, TILE, TILE);
  }

  lemma CellSet<T>(p: seq<T>, width: nat, i: nat, k: nat, value: T, x: nat, y: nat, w: T)
    requires Offset(i, width) + k < |p| && k < width && y < width && CellIs(p, width, x, y, w) && (x != i || y != k)
    ensures CellIs(p[Offset(i, width) + k := value], width, x, y, w)
  {
    if x < i { RowsApart(x, i, width); }
    if i < x { RowsApart(i, x, width); }
  }

  ghost predicate ACell<T>(g: Problem<T>, p: seq<T>, ii: nat, kk: nat, width: nat, x: nat, y: nat)
    requires g.Valid() && ii + x < g.n && kk + y < g.k
  {
    CellIs(p, width, x, y, AAt(g, ii + x, kk + y))
  }

  ghost predicate BCell<T>(g: Problem<T>, p: seq<T>, kk: nat, jj: nat, width: nat, x: nat, y: nat)
    requires g.Valid() && kk + x < g.k && jj + y < g.m
  {
    CellIs(p, width, x, y, BAt(g, kk + x, jj + y))
  }

  ghost predicate PackedA<T>(g: Problem<T>, p: seq<T>, ii: nat, rows: nat, kk: nat, depth: nat)
    requires g.Valid() && ii + rows <= g.n && kk + depth <= g.k
  {
    forall i, k | 0 <= i < rows && 0 <= k < depth :: ACell(g, p, ii, kk, depth, i, k)
  }

  ghost predicate PackedB<T>(g: Problem<T>, p: seq<T>, kk: nat, depth: nat, jj: nat, cols: nat)
    requires g.Valid() && kk + depth <= g.k && jj + cols <= g.m
  {
    forall k, j | 0 <= k < depth && 0 <= j < cols :: BCell(g, p, kk, jj, cols, k, j)
  }

  /** Writing the next cell of a packed block of A. */
  lemma ACellSet<T>(g: Problem<T>, p: seq<T>, ii: nat, rows: nat, kk: nat, depth: nat, i: nat, k: nat)
    requires g.Valid() && ii + rows <= g.n && kk + depth <= g.k && i < rows && k < depth && Offset(i, depth) + k < |p|
    ensures var q := p[Offset(i, depth) + k := AAt(g, ii + i, kk + k)];
            && ACell(g, q, ii, kk, depth, i, k)
            && forall x, y |
                 0 <= x < rows && 0 <= y < depth && (x != i || y != k) && ACell(g, p, ii, kk, depth, x, y) ::
                 ACell(g, q, ii, kk, depth, x, y)
  {
    hide AAt, Offset, CellIs;
    var q := p[Offset(i, depth) + k := AAt(g, ii + i, kk + k)];
    CellNow(q, depth, i, k);
    forall x, y | 0 <= x < rows && 0 <= y < depth && (x != i || y != k) && ACell(g, p, ii, kk, depth, x, y)
      ensures ACell(g, q, ii, kk, depth, x, y)
    {
      CellSet(p, depth, i, k, AAt(g, ii + i, kk + k), x, y, AAt(g, ii + x, kk + y));
    }
  }

  lemma BCellSet<T>(g: Problem<T>, p: seq<T>, kk: nat, depth: nat, jj: nat, cols: nat, k: nat, j: nat)
    requires g.Valid() && kk + depth <= g.k && jj + cols <= g.m && k < depth && j < cols && Offset(k, cols) + j < |p|
    ensures var q := p[Offset(k, cols) + j := BAt(g, kk + k, jj + j)];
            && BCell(g, q, kk, jj, cols, k, j)
            && forall x, y | 0 <= x < depth && 0 <= y < cols && (x != k || y != j) && BCell(g, p, kk, jj, cols, x, y) ::
                 BCell(g, q, kk, jj, cols, x, y)
  {
    hide BAt, Offset, CellIs;
    var q := p[Offset(k, cols) + j := BAt(g, kk + k, jj + j)];
    CellNow(q, cols, k, j);
    forall x, y | 0 <= x < depth && 0 <= y < cols && (x != k || y != j) && BCell(g, p, kk, jj, cols, x, y)
      ensures BCell(g, q, kk, jj, cols, x, y)
    {
      CellSet(p, cols, k, j, BAt(g, kk + k, jj + j), x, y, BAt(g, kk + x, jj + y));
    }
  }

  lemma CellNow<T>(p: seq<T>, width: nat, i: nat, k: nat)
    requires Offset(i, width) + k < |p|
    ensures CellIs(p, width, i, k, p[Offset(i, width) + k])
  {
  }

  /** Copies a block of op(A) into consecutive memory. */
  method PackA<T>(g: Problem<T>, packA: array<T>, ii: nat, rows: nat, kk: nat, depth: nat)
    requires g.Valid() && ii + rows <= g.n && kk + depth <= g.k && rows <= TILE && depth <= TILE
    requires packA.Length == Offset(TILE, TILE)
    modifies packA
    ensures PackedA(g, packA[..], ii, rows, kk, depth)
  {
    hide Offset, ACell, AAt;
    for i := 0 to rows
      invariant forall x, y | 0 <= x < i && 0 <= y < depth :: ACell(g, packA[..], ii, kk, depth, x, y)
    {
      for k := 0 to depth
        invariant forall x, y | 0 <= x < i && 0 <= y < depth :: ACell(g, packA[..], ii, kk, depth, x, y)
        invariant forall y | 0 <= y < k :: ACell(g, packA[..], ii, kk, depth, i, y)
      {
        PackedInside(rows, depth, i, k);
        ACellSet(g, packA[..], ii, rows, kk, depth, i, k);
        packA[Offset(i, depth) + k] := AAt(g, ii + i, kk + k);
      }
    }
  }

  /** Copies a block of op(B) into consecutive memory. */
  method PackB<T>(g: Problem<T>, packB: array<T>, kk: nat, depth: nat, jj: nat, cols: nat)
    requires g.Valid() && kk + depth <= g.k && jj + cols <= g.m && depth <= TILE && cols <= TILE
    requires packB.Length == Offset(TILE, TILE)
    modifies packB
    ensures PackedB(g, packB[..], kk, depth, jj, cols)
  {
    hide Offset, BCell, BAt;
    for k := 0 to depth
      invariant forall x, y | 0 <= x < k && 0 <= y < cols :: BCell(g, packB[..], kk, jj, cols, x, y)
    {
      for j := 0 to cols
        invariant forall x, y | 0 <= x < k && 0 <= y < cols :: BCell(g, packB[..], kk, jj, cols, x, y)
        invariant forall y | 0 <= y < j :: BCell(g, packB[..], kk, jj, cols, k, y)
      {
        PackedInside(depth, cols, k, j);
        BCellSet(g, packB[..], kk, depth, jj, cols, k, j);
        packB[Offset(k, cols) + j] := BAt(g, kk + k, jj + j);
      }
    }
  }

  lemma PackedBAt<T>(g: Problem<T>, p: seq<T>, kk: nat, depth: nat, jj: nat, cols: nat, k: nat, j: nat)
    requires g.Valid() && kk + depth <= g.k && jj + cols <= g.m && PackedB(g, p, kk, depth, jj, cols) && k < depth &&
             j < cols
    ensures Offset(k, cols) + j < |p| && p[Offset(k, cols) + j] == BRow(g, kk + k)(jj + j)
  {
    assert BCell(g, p, kk, jj, cols, k, j);
  }

  lemma RowInside<T>(g: Problem<T>, i: nat, y: nat)
    requires i < g.n && y < g.m
    ensures Offset(i, g.m) + y < Offset(g.n, g.m)
  {
    RowsApart(i, g.n, g.m);
  }

  /** Adds `a` times a packed row to part of a row of C. */
  method AddPackedRow<T>(g: Problem<T>, c: array<T>, packB: array<T>, i: nat, kk: nat, k: nat, depth: nat, jj: nat,
                         cols: nat, a: T)
    requires g.Valid() && i < g.n && k < depth && kk + depth <= g.k && jj + cols <= g.m && c.Length == Offset(g.n, g.m)
    requires c != packB && PackedB(g, packB[..], kk, depth, jj, cols)
    modifies c
    ensures c[..] == Updated(g.ar, old(c[..]), Offset(i, g.m), jj, jj + cols, a, BRow(g, kk + k))
  {
    hide Updated, Offset, BRow, PackedB;
    var crow := Offset(i, g.m);
    ghost var before := c[..];
    NothingUpdated(g.ar, before, crow, jj, a, BRow(g, kk + k));
    for j := 0 to cols
      invariant c[..] == Updated(g.ar, before, crow, jj, jj + j, a, BRow(g, kk + k))
    {
      RowInside(g, i, jj + j);
      UpdatedMore(g.ar, before, crow, jj, jj + j, a, BRow(g, kk + k));
      PackedBAt(g, packB[..], kk, depth, jj, cols, k, j);
      c[crow + (jj + j)] := g.ar.add(c[crow + (jj + j)], g.ar.mul(a, packB[Offset(k, cols) + j]));
    }
  }

  /** One row of the micro-kernel. */
  method MicroRow<T(==)>(g: Problem<T>, c: array<T>, packA: array<T>, packB: array<T>, ii: nat, rows: nat, i: nat,
                         kk: nat, depth: nat, jj: nat, cols: nat,
                         ghost begin: nat, ghost end: nat, ghost done: (nat, nat) -> nat)
    requires Ready(g, c[..], begin, end, done) && begin <= ii && ii + rows <= end && i < rows && kk + depth <= g.k &&
             jj + cols <= g.m
    requires c != packA && c != packB && PackedA(g, packA[..], ii, rows, kk, depth) &&
             PackedB(g, packB[..], kk, depth, jj, cols)
    requires At(done, ii + i, ii + i + 1, jj, jj + cols, kk)
    modifies c
    ensures Ready(g, c[..], begin, end, Jumped(done, ii + i, ii + i + 1, jj, jj + cols, kk + depth))
    ensures OnlyRows(old(c[..]), c[..], g.m, begin, end)
  {
    hide Progress, OnlyRows, Offset, Jumped, PackedB, Updated, AAt;
    ghost var was := c[..];
    ghost var r := ii + i;
    SameRows(was, g.m, begin, end);
    JumpNowhere(g, was, begin, end, done, r, r + 1, jj, jj + cols, kk);
    for k := 0 to depth
      invariant Ready(g, c[..], begin, end, Jumped(done, r, r + 1, jj, jj + cols, kk + k)) &&
                OnlyRows(was, c[..], g.m, begin, end)
    {
      ghost var now, before := c[..], Jumped(done, r, r + 1, jj, jj + cols, kk + k);
      assert ACell(g, packA[..], ii, kk, depth, i, k);
      var a := packA[Offset(i, depth) + k];
      AtJumped(done, r, r + 1, jj, jj + cols, kk + k);
      RowProgress(g, now, begin, end, before, r, kk + k, jj, jj + cols, BRow(g, kk + k));
      if a == g.ar.zero {
        SameRows(now, g.m, begin, end);
      } else {
        AddPackedRow(g, c, packB, ii + i, kk, k, depth, jj, cols, a);
        UpdatedOnly(g.ar, now, g.m, r, jj, jj + cols, a, BRow(g, kk + k));
        OnlyRowsWider(now, c[..], g.m, r, begin, end);
      }
      JumpFurther(g, c[..], begin, end, done, r, r + 1, jj, jj + cols, kk + k, kk + k + 1);
      OnlyRowsTransitive(was, now, c[..], g.m, begin, end);
    }
  }

  /** Adds the products of two packed tiles to a tile of C. */
  method MicroKernel<T(==)>(g: Problem<T>, c: array<T>, packA: array<T>, packB: array<T>, ii: nat, rows: nat,
                            kk: nat, depth: nat, jj: nat, cols: nat,
                            ghost begin: nat, ghost end: nat, ghost done: (nat, nat) -> nat)
    requires Ready(g, c[..], begin, end, done) && begin <= ii && ii + rows <= end && kk + depth <= g.k &&
             jj + cols <= g.m
    requires c != packA && c != packB && PackedA(g, packA[..], ii, rows, kk, depth) &&
             PackedB(g, packB[..], kk, depth, jj, cols)
    requires At(done, ii, ii + rows, jj, jj + cols, kk)
    modifies c
    ensures Ready(g, c[..], begin, end, Jumped(done, ii, ii + rows, jj, jj + cols, kk + depth))
    ensures OnlyRows(old(c[..]), c[..], g.m, begin, end)
  {
    hide Progress, OnlyRows, Offset, Jumped, At, PackedA, PackedB;
    ghost var was := c[..];
    SameRows(was, g.m, begin, end);
    JumpNowhere(g, was, begin, end, done, ii, ii, jj, jj + cols, kk + depth);
    for i := 0 to rows
      invariant Ready(g, c[..], begin, end, Jumped(done, ii, ii + i, jj, jj + cols, kk + depth)) &&
                OnlyRows(was, c[..], g.m, begin, end)
    {
      ghost var now, before := c[..], Jumped(done, ii, ii + i, jj, jj + cols, kk + depth);
      AtAfterRows(done, ii, ii + i, ii + rows, jj, jj + cols, kk, kk + depth);
      AtPart(before, ii + i, ii + rows, jj, jj + cols, kk, ii + i, ii + i + 1, jj, jj + cols);
      MicroRow(g, c, packA, packB, ii, rows, i, kk, depth, jj, cols, begin, end, before);
      JumpMoreRows(g, c[..], begin, end, done, ii, ii + i, ii + i + 1, jj, jj + cols, kk + depth);
      OnlyRowsTransitive(was, now, c[..], g.m, begin, end);
    }
  }

  /** The tiles of a packed block of A, column block by column block. */
  method PackedDepth<T(==)>(g: Problem<T>, c: array<T>, packA: array<T>, packB: array<T>, ii: nat, rows: nat,
                            kk: nat, depth: nat, ghost begin: nat, ghost end: nat, ghost done: (nat, nat) -> nat)
    requires Ready(g, c[..], begin, end, done) && begin <= ii && ii + rows <= end && kk + depth <= g.k && depth <= TILE
    requires c != packA && c != packB && packA != packB && packB.Length == Offset(TILE, TILE)
    requires PackedA(g, packA[..], ii, rows, kk, depth) && At(done, ii, ii + rows, 0, g.m, kk)
    modifies c, packB
    ensures Ready(g, c[..], begin, end, Jumped(done, ii, ii + rows, 0, g.m, kk + depth))
    ensures OnlyRows(old(c[..]), c[..], g.m, begin, end)
  {
    hide Progress, OnlyRows, Offset, Jumped, At, PackedA, PackedB;
    ghost var was := c[..];
    SameRows(was, g.m, begin, end);
    JumpNowhere(g, was, begin, end, done, ii, ii + rows, 0, 0, kk + depth);
    var jj := 0;
    while jj < g.m
      invariant jj <= g.m && packA[..] == old(packA[..])
      invariant Ready(g, c[..], begin, end, Jumped(done, ii, ii + rows, 0, jj, kk + depth)) &&
                OnlyRows(was, c[..], g.m, begin, end)
    {
      ghost var now, before := c[..], Jumped(done, ii, ii + rows, 0, jj, kk + depth);
      var jMax := Smaller(jj + TILE, g.m);
      var cols := jMax - jj;
      PackB(g, packB, kk, depth, jj, cols);
      assert c[..] == now;
      AtAfterColumns(done, ii, ii + rows, 0, jj, g.m, kk, kk + depth);
      AtPart(before, ii, ii + rows, jj, g.m, kk, ii, ii + rows, jj, jj + cols);
      MicroKernel(g, c, packA, packB, ii, rows, kk, depth, jj, cols, begin, end, before);
      JumpMoreColumns(g, c[..], begin, end, done, ii, ii + rows, 0, jj, jMax, kk + depth);
      OnlyRowsTransitive(was, now, c[..], g.m, begin, end);
      jj := jMax;
    }
  }

  /** All the products of a block of rows, packing each block of A once. */
  method PackedRows<T(==)>(g: Problem<T>, c: array<T>, packA: array<T>, packB: array<T>, ii: nat, rows: nat,
                           ghost begin: nat, ghost end: nat, ghost done: (nat, nat) -> nat)
    requires Ready(g, c[..], begin, end, done) && begin <= ii && ii + rows <= end && rows <= TILE &&
             At(done, ii, ii + rows, 0, g.m, 0)
    requires c != packA && c != packB && packA != packB && packA.Length == packB.Length == Offset(TILE, TILE)
    modifies c, packA, packB
    ensures Ready(g, c[..], begin, end, Jumped(done, ii, ii + rows, 0, g.m, g.k))
    ensures OnlyRows(old(c[..]), c[..], g.m, begin, end)
  {
    hide Progress, OnlyRows, Offset, Jumped, At, PackedA;
    ghost var was := c[..];
    SameRows(was, g.m, begin, end);
    JumpNowhere(g, was, begin, end, done, ii, ii + rows, 0, g.m, 0);
    var kk := 0;
    while kk < g.k
      invariant kk <= g.k
      invariant Ready(g, c[..], begin, end, Jumped(done, ii, ii + rows, 0, g.m, kk)) &&
                OnlyRows(was, c[..], g.m, begin, end)
    {
      ghost var now := c[..];
      var kMax := Smaller(kk + TILE, g.k);
      var depth := kMax - kk;
      PackA(g, packA, ii, rows, kk, depth);
      assert c[..] == now;
      AtJumped(done, ii, ii + rows, 0, g.m, kk);
      PackedDepth(g, c, packA, packB, ii, rows, kk, depth, begin, end, Jumped(done, ii, ii + rows, 0, g.m, kk));
      JumpFurther(g, c[..], begin, end, done, ii, ii + rows, 0, g.m, kk, kMax);
      OnlyRowsTransitive(was, now, c[..], g.m, begin, end);
      kk := kMax;
    }
  }

  /** The blocked kernel that packs its tiles. */
  method AccumulatePacked<T(==)>(g: Problem<T>, c: array<T>, begin: nat, end: nat)
    requires g.Valid() && begin <= end <= g.n && c.Length == Offset(g.n, g.m)
    modifies c
    ensures Ready(g, c[..], begin, end, Jumped(Nothing(), begin, end, 0, g.m, g.k))
    ensures OnlyRows(old(c[..]), c[..], g.m, begin, end)
  {
    hide Progress, OnlyRows, Offset, Jumped;
    ghost var was := c[..];
    ClearRows(g, c, begin, end);
    JumpNowhere(g, c[..], begin, end, Nothing(), begin, begin, 0, g.m, g.k);
    var packA := new T[Offset(TILE, TILE)](_ => g.ar.zero);
    var packB := new T[Offset(TILE, TILE)](_ => g.ar.zero);
    var ii := begin;
    while ii < end
      invariant begin <= ii <= end
      invariant Ready(g, c[..], begin, end, Jumped(Nothing(), begin, ii, 0, g.m, g.k)) &&
                OnlyRows(was, c[..], g.m, begin, end)
    {
      ghost var now, before := c[..], Jumped(Nothing(), begin, ii, 0, g.m, g.k);
      var iMax := Smaller(ii + TILE, end);
      AtAfterRows(Nothing(), begin, ii, iMax, 0, g.m, 0, g.k);
      PackedRows(g, c, packA, packB, ii, iMax - ii, begin, end, before);
      JumpMoreRows(g, c[..], begin, end, Nothing(), begin, ii, iMax, 0, g.m, g.k);
      OnlyRowsTransitive(was, now, c[..], g.m, begin, end);
      ii := iMax;
    }
  }

  // ----- scaling, bias and activation -----

  datatype Params<!T> = Params(alpha: T, beta: T, fuseRelu: bool)

  /** An element's final value: alpha times the product, plus beta times the bias, through the activation. */
  function Final<T>(g: Problem<T>, prm: Params<T>, bias: seq<T>, x: nat, y: nat, product: T): T
    requires x < g.n && y < g.m
  {
    RowsApart(x, g.n, g.m);
    var scaled := g.ar.mul(prm.alpha, product);
    var value := if |bias| == g.m then g.ar.add(scaled, g.ar.mul(prm.beta, bias[y]))
                 else if |bias| == Offset(g.n, g.m) then g.ar.add(scaled, g.ar.mul(prm.beta, bias[Offset(x, g.m) + y]))
                 else scaled;
    if prm.fuseRelu then g.ar.relu(value) else value
  }

  /** The rows of a shard hold their final values. */
  ghost predicate RowsFinal<T>(g: Problem<T>, c: seq<T>, begin: nat, end: nat, o: Order, prm: Params<T>, bias: seq<T>)
    requires g.Valid() && end <= g.n && Offset(g.n, g.m) <= |c|
  {
    forall x, y | begin <= x < end && 0 <= y < g.m :: Holds(g, c, x, y, FinalValue(g, o, prm, bias, x, y))
  }

  function FinalValue<T(==)>(g: Problem<T>, o: Order, prm: Params<T>, bias: seq<T>, x: nat, y: nat): T
    requires g.Valid() && x < g.n && y < g.m
  {
    Final(g, prm, bias, x, y, Value(g, o, x, y))
  }

  lemma RowsFinalMore<T>(g: Problem<T>, c: seq<T>, d: seq<T>, begin: nat, i: nat, o: Order, prm: Params<T>,
                         bias: seq<T>)
    requires g.Valid() && begin <= i < g.n && Offset(g.n, g.m) <= |c| && RowsFinal(g, c, begin, i, o, prm, bias)
    requires OnlyRows(c, d, g.m, i, i + 1) && RowsFinal(g, d, i, i + 1, o, prm, bias)
    ensures RowsFinal(g, d, begin, i + 1, o, prm, bias)
  {
    hide FinalValue, Offset;
    forall x, y | begin <= x < i + 1 && 0 <= y < g.m ensures Holds(g, d, x, y, FinalValue(g, o, prm, bias, x, y)) {
      if x < i {
        assert Holds(g, c, x, y, FinalValue(g, o, prm, bias, x, y));
        OtherRow(c, d, g.m, g.n, i, i + 1, x, y);
      }
    }
  }

  /** Rows a later write has left alone. */
  lemma RowsLeft<T>(g: Problem<T>, c: seq<T>, d: seq<T>, i: nat, end: nat, o: Order)
    requires g.Valid() && i < end <= g.n && Offset(g.n, g.m) <= |c| && RowsHold(g, c, i, end, o) &&
             OnlyRows(c, d, g.m, i, i + 1)
    ensures RowsHold(g, d, i + 1, end, o)
  {
    hide Value, Offset;
    forall x, y | i + 1 <= x < end && 0 <= y < g.m ensures Holds(g, d, x, y, Value(g, o, x, y)) {
      assert Holds(g, c, x, y, Value(g, o, x, y));
      OtherRow(c, d, g.m, g.n, i, i + 1, x, y);
    }
  }

  /** Rewriting one element of a row leaves the row's others. */
  lemma ElementSet<T>(g: Problem<T>, c: seq<T>, i: nat, j: nat, value: T, y: nat, w: T)
    requires i < g.n && j < g.m && y < g.m && Offset(g.n, g.m) <= |c|
    ensures Offset(i, g.m) + j < |c|
    ensures var d := c[Offset(i, g.m) + j := value];
            OnlyRows(c, d, g.m, i, i + 1) && Holds(g, d, i, j, value) &&
              (y != j && Holds(g, c, i, y, w) ==> Holds(g, d, i, y, w))
  {
    RowsApart(i, g.n, g.m);
  }

  method FinalizeRow<T(==)>(g: Problem<T>, c: array<T>, bias: seq<T>, prm: Params<T>, i: nat, ghost o: Order)
    requires g.Valid() && i < g.n && c.Length == Offset(g.n, g.m) && RowsHold(g, c[..], i, i + 1, o)
    modifies c
    ensures RowsFinal(g, c[..], i, i + 1, o, prm, bias) && OnlyRows(old(c[..]), c[..], g.m, i, i + 1)
  {
    hide OnlyRows, Offset, Holds, Value, Final;
    ghost var was := c[..];
    SameRows(was, g.m, i, i + 1);
    assert forall y | 0 <= y < g.m :: Holds(g, was, i, y, Value(g, o, i, y));
    for j := 0 to g.m
      invariant forall y | 0 <= y < j :: Holds(g, c[..], i, y, FinalValue(g, o, prm, bias, i, y))
      invariant forall y | j <= y < g.m :: Holds(g, c[..], i, y, Value(g, o, i, y))
      invariant OnlyRows(was, c[..], g.m, i, i + 1)
    {
      ghost var now := c[..];
      HeldAt(g, now, i, j, Value(g, o, i, j));
      var value := Final(g, prm, bias, i, j, c[Offset(i, g.m) + j]);
      forall y | 0 <= y < g.m
        ensures var d := now[Offset(i, g.m) + j := value];
                && OnlyRows(now, d, g.m, i, i + 1) && Holds(g, d, i, j, value)
                && (y < j ==> Holds(g, d, i, y, FinalValue(g, o, prm, bias, i, y)))
                && (j < y ==> Holds(g, d, i, y, Value(g, o, i, y)))
      {
        ElementSet(g, now, i, j, value, y, if y < j then FinalValue(g, o, prm, bias, i, y) else Value(g, o, i, y));
      }
      ElementSet(g, now, i, j, value, j, value);
      c[Offset(i, g.m) + j] := value;
      assert c[..] == now[Offset(i, g.m) + j := value];
      OnlyRowsTransitive(was, now, c[..], g.m, i, i + 1);
    }
  }

  lemma HeldAt<T>(g: Problem<T>, c: seq<T>, i: nat, j: nat, value: T)
    requires i < g.n && j < g.m && Offset(g.n, g.m) <= |c| && Holds(g, c, i, j, value)
    ensures Offset(i, g.m) + j < |c| && c[Offset(i, g.m) + j] == value
  {
    RowsApart(i, g.n, g.m);
  }

  method Finalize<T(==)>(g: Problem<T>, c: array<T>, bias: seq<T>, prm: Params<T>, begin: nat, end: nat, ghost o: Order)
    requires g.Valid() && begin <= end <= g.n && c.Length == Offset(g.n, g.m) && RowsHold(g, c[..], begin, end, o)
    modifies c
    ensures RowsFinal(g, c[..], begin, end, o, prm, bias) && OnlyRows(old(c[..]), c[..], g.m, begin, end)
  {
    hide OnlyRows, Offset, Holds, Value, Final;
    ghost var was := c[..];
    SameRows(was, g.m, begin, end);
    for i := begin to end
      invariant RowsFinal(g, c[..], begin, i, o, prm, bias) && RowsHold(g, c[..], i, end, o)
      invariant OnlyRows(was, c[..], g.m, begin, end)
    {
      ghost var now := c[..];
      FinalizeRow(g, c, bias, prm, i, o);
      RowsFinalMore(g, now, c[..], begin, i, o, prm, bias);
      RowsLeft(g, now, c[..], i, end, o);
      OnlyRowsWider(now, c[..], g.m, i, begin, end);
      OnlyRowsTransitive(was, now, c[..], g.m, begin, end);
    }
  }

  // ----- the whole multiplication -----

  datatype Strategy = NaiveStrategy | ReorderedStrategy | TiledStrategy | PackedStrategy | AutoStrategy

  function ResolveAuto(n: nat, k: nat, m: nat): Strategy {
    if n * k * m < 0x1000 then ReorderedStrategy else if n >= 16 then PackedStrategy else TiledStrategy
  }

  function Resolve(s: Strategy, n: nat, k: nat, m: nat): (r: Strategy)
    ensures !r.AutoStrategy?
  {
    if s.AutoStrategy? then ResolveAuto(n, k, m) else s
  }

  /** The order of additions a strategy amounts to. */
  function OrderOf<T>(g: Problem<T>, s: Strategy): Order {
    match s
    case NaiveStrategy => InOrder
    case ReorderedStrategy => if g.transB && !g.transA then ByFours else NoZeros
    case _ => NoZeros
  }

  /** One shard: its rows end up final, and no other row changes. */
  method RunRows<T(==)>(g: Problem<T>, c: array<T>, s: Strategy, bias: seq<T>, prm: Params<T>, begin: nat, end: nat)
    requires g.Valid() && begin <= end <= g.n && c.Length == Offset(g.n, g.m) && !s.AutoStrategy?
    modifies c
    ensures RowsFinal(g, c[..], begin, end, OrderOf(g, s), prm, bias) && OnlyRows(old(c[..]), c[..], g.m, begin, end)
  {
    hide OnlyRows, Offset, RowsHold, RowsFinal, Ready;
    ghost var was := c[..];
    match s {
      case NaiveStrategy => AccumulateDots(g, c, begin, end, false);
      case ReorderedStrategy => AccumulateReordered(g, c, begin, end);
      case TiledStrategy => AccumulateTiled(g, c, begin, end); AllIn(g, c[..], begin, end);
      case PackedStrategy => AccumulatePacked(g, c, begin, end); AllIn(g, c[..], begin, end);
    }
    ghost var now := c[..];
    Finalize(g, c, bias, prm, begin, end, OrderOf(g, s));
    OnlyRowsTransitive(was, now, c[..], g.m, begin, end);
  }

  ghost predicate Covered(ranges: seq<Range>, upto: nat, x: nat)
    requires upto <= |ranges|
  {
    exists i :: 0 <= i < upto && Inside(ranges[i], x)
  }

  /** The rows of the shards that have run are final. */
  ghost predicate CoveredFinal<T>(g: Problem<T>, c: seq<T>, ranges: seq<Range>, upto: nat, o: Order, prm: Params<T>,
                                  bias: seq<T>)
    requires g.Valid() && Offset(g.n, g.m) <= |c| && upto <= |ranges|
  {
    forall x, y | 0 <= x < g.n && 0 <= y < g.m && Covered(ranges, upto, x) ::
        Holds(g, c, x, y, FinalValue(g, o, prm, bias, x, y))
  }

  lemma OneMoreShard<T>(g: Problem<T>, c: seq<T>, d: seq<T>, ranges: seq<Range>, i: nat, o: Order, prm: Params<T>,
                        bias: seq<T>)
    requires g.Valid() && Offset(g.n, g.m) <= |c| && i < |ranges| && ranges[i].begin <= ranges[i].end <= g.n
    requires CoveredFinal(g, c, ranges, i, o, prm, bias) && OnlyRows(c, d, g.m, ranges[i].begin, ranges[i].end)
    requires RowsFinal(g, d, ranges[i].begin, ranges[i].end, o, prm, bias)
    ensures CoveredFinal(g, d, ranges, i + 1, o, prm, bias)
  {
    hide FinalValue, Offset;
    forall x, y | 0 <= x < g.n && 0 <= y < g.m && Covered(ranges, i + 1, x)
      ensures Holds(g, d, x, y, FinalValue(g, o, prm, bias, x, y))
    {
      if !Inside(ranges[i], x) {
        assert Covered(ranges, i, x);
        assert Holds(g, c, x, y, FinalValue(g, o, prm, bias, x, y));
        OtherRow(c, d, g.m, g.n, ranges[i].begin, ranges[i].end, x, y);
      }
    }
  }

  /** However the rows are split into shards, and in whatever order the shards run, every row ends up final. */
  method RunShards<T(==)>(g: Problem<T>, c: array<T>, s: Strategy, bias: seq<T>, prm: Params<T>, ranges: seq<Range>)
    requires g.Valid() && c.Length == Offset(g.n, g.m) && !s.AutoStrategy?
    requires forall r <- ranges :: r.begin <= r.end <= g.n
    requires forall x: nat | x < g.n :: Covered(ranges, |ranges|, x)
    modifies c
    ensures RowsFinal(g, c[..], 0, g.n, OrderOf(g, s), prm, bias)
  {
    hide OnlyRows, Offset, Holds, FinalValue, OrderOf;
    for i := 0 to |ranges|
      invariant CoveredFinal(g, c[..], ranges, i, OrderOf(g, s), prm, bias)
    {
      ghost var now := c[..];
      assert ranges[i] in ranges;
      RunRows(g, c, s, bias, prm, ranges[i].begin, ranges[i].end);
      OneMoreShard(g, now, c[..], ranges, i, OrderOf(g, s), prm, bias);
    }
  }

  datatype Matrix<!T> = Matrix(shape: seq<nat>, data: seq<T>) {
    /** The data of a rank-two tensor fills its shape. */
    predicate Filled() {
      |shape| == 2 ==> |data| == Offset(shape[0], shape[1])
    }
  }

  function ProblemOf<T>(ar: Arith<T>, a: Matrix<T>, b: Matrix<T>, transA: bool, transB: bool): (g: Problem<T>)
    requires |a.shape| == 2 && |b.shape| == 2
  {
    Problem(ar, a.data, b.data,
            if transA then a.shape[1] else a.shape[0], if transA then a.shape[0] else a.shape[1],
            if transB then b.shape[0] else b.shape[1], transA, transB)
  }

  /** What the multiplication demands of its operands. */
  predicate Multipliable<T>(a: Matrix<T>, b: Matrix<T>, bias: seq<T>, transA: bool, transB: bool) {
    && |a.shape| == 2 && |b.shape| == 2
    && (if transA then a.shape[0] else a.shape[1]) == (if transB then b.shape[1] else b.shape[0])
    && var n, m := if transA then a.shape[1] else a.shape[0], if transB then b.shape[0] else b.shape[1];
       |bias| == 0 || |bias| == m || |bias| == Offset(n, m)
  }

  lemma MultipliableValid<T>(ar: Arith<T>, a: Matrix<T>, b: Matrix<T>, bias: seq<T>, transA: bool, transB: bool)
    requires Multipliable(a, b, bias, transA, transB) && a.Filled() && b.Filled()
    ensures ProblemOf(ar, a, b, transA, transB).Valid()
  {
    SameArea(a.shape[0], a.shape[1]);
    SameArea(b.shape[0], b.shape[1]);
  }

  /** What the multiplication promises of its result. */
  ghost predicate Delivered<T>(ar: Arith<T>, a: Matrix<T>, b: Matrix<T>, bias: seq<T>, prm: Params<T>,
                               transA: bool, transB: bool, s: Strategy, r: Matrix<T>)
  {
    && Multipliable(a, b, bias, transA, transB)
    && var g := ProblemOf(ar, a, b, transA, transB);
       && g.Valid() && r.shape == [g.n, g.m] && |r.data| == Offset(g.n, g.m)
       && RowsFinal(g, r.data, 0, g.n, OrderOf(g, Resolve(s, g.n, g.k, g.m)), prm, bias)
  }

  /**
   * The product of two matrices with bias and activation. The result depends neither on what the output buffer
   * held, nor on the number of workers, nor on whether the call comes from inside the pool; on the strategy it
   * depends only through the order of additions.
   */
  method Compute<T(==)>(ar: Arith<T>, a: Matrix<T>, b: Matrix<T>, bias: seq<T>, prm: Params<T>,
                        transA: bool, transB: bool, strategy: Strategy, stale: Matrix<T>, workers: nat, inside: bool)
        returns (r: Result<Matrix<T>>)
    requires a.Filled() && b.Filled() && stale.Filled()
    ensures r.Ok? <==> Multipliable(a, b, bias, transA, transB)
    ensures r.Ok? ==> Delivered(ar, a, b, bias, prm, transA, transB, strategy, r.value)
  {
    if !Multipliable(a, b, bias, transA, transB) {
      return Err("Gemm operands do not match");
    }
    MultipliableValid(ar, a, b, bias, transA, transB);
    var g := ProblemOf(ar, a, b, transA, transB);
    hide Offset, RowsFinal, Resolve;
    var c := new T[Offset(g.n, g.m)](_ => ar.zero);
    if stale.shape == [g.n, g.m] {
      Refill(c, stale.data);
    }
    var worthSharding := workers > 0 && g.n > 1 && g.k * g.m * g.n >= 0x4_0000;
    var ranges := [Range(0, g.n)];
    if worthSharding {
      ranges := ParallelFor(g.n, 1, workers, inside);
    } else {
      assert Tiles(ranges[1..], g.n, g.n);
      if g.n == 0 {
        ranges := [];
      }
    }
    TilesAll(ranges, g.n);
    RunShards(g, c, Resolve(strategy, g.n, g.k, g.m), bias, prm, ranges);
    return Ok(Matrix([g.n, g.m], c[..]));
  }

  /** Leaves in a buffer what an earlier computation left there. */
  method Refill<T>(c: array<T>, data: seq<T>)
    requires |data| == c.Length
    modifies c
    ensures c[..] == data
  {
    for i := 0 to c.Length
      invariant c[..i] == data[..i]
    {
      c[i] := data[i];
    }
  }

  lemma TilesAll(ranges: seq<Range>, n: nat)
    requires Tiles(ranges, 0, n)
    ensures forall r <- ranges :: r.begin <= r.end <= n
    ensures forall x: nat | x < n :: Covered(ranges, |ranges|, x)
  {
    TilesOrdered(ranges, 0, n);
    forall x: nat | x < n ensures Covered(ranges, |ranges|, x) {
      TilesCover(ranges, 0, n, x);
    }
  }

  // ----- agreement -----

  /** With `x + 0 * b = x` every strategy but the unrolled one gives each element the textbook value. */
  lemma StrategiesAgree<T(!new)>(g: Problem<T>, s: Strategy, x: nat, y: nat)
    requires g.Valid() && x < g.n && y < g.m && ZeroSkips(g.ar) && !OrderOf(g, s).ByFours?
    ensures Value(g, OrderOf(g, s), x, y) == Naive(g, x, y, g.k)
  {
    SkippingIsNaive(g, x, y, g.k);
  }

  /** In exact arithmetic every strategy gives each element the textbook value. */
  lemma ExactStrategiesAgree<T(!new)>(g: Problem<T>, s: Strategy, x: nat, y: nat)
    requires g.Valid() && x < g.n && y < g.m && ZeroSkips(g.ar) && Exact(g.ar)
    ensures Value(g, OrderOf(g, s), x, y) == Naive(g, x, y, g.k)
  {
    SkippingIsNaive(g, x, y, g.k);
    UnrolledIsNaive(g, x, y);
  }
}
