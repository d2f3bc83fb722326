/** A binary min-heap over a growable sequence, for any ordering. */
module Heaps {
  predicate Consistent<T>(less: (T, T) -> bool, a: T, b: T, c: T) {
    && (less(a, b) ==> !less(b, a))
    && (!less(b, a) && !less(c, b) ==> !less(c, a))
  }

  /** A strict weak order: `!less` is a total preorder. */
  ghost predicate StrictWeakOrder<T(!new)>(less: (T, T) -> bool) {
    forall a, b, c :: Consistent(less, a, b, c)
  }

  function Parent(c: nat): nat
    requires c > 0
  {
    (c - 1) / 2
  }

  /** Every item below `n` whose parent is at `lo` or later is no less than its parent. */
  ghost predicate HeapFrom<T(!new)>(less: (T, T) -> bool, s: seq<T>, lo: nat, n: nat) {
    && n <= |s|
    && forall c | 0 < c < n && lo <= Parent(c) :: !less(s[c], s[Parent(c)])
  }

  /** As `HeapFrom`, except that the item at `i` may be greater than its children. */
  ghost predicate SiftingDown<T(!new)>(less: (T, T) -> bool, s: seq<T>, lo: nat, n: nat, i: nat) {
    && lo <= i < n <= |s|
    && (forall c | 0 < c < n && lo <= Parent(c) && Parent(c) != i :: !less(s[c], s[Parent(c)]))
    && (i > lo ==> lo <= Parent(i) && forall c | 0 < c < n && Parent(c) == i :: !less(s[c], s[Parent(i)]))
  }

  /** As a heap, except that the item at `j` may be less than its parent. */
  ghost predicate SiftingUp<T(!new)>(less: (T, T) -> bool, s: seq<T>, j: nat) {
    && j < |s|
    && (forall c | 0 < c < |s| && c != j :: !less(s[c], s[Parent(c)]))
    && (j > 0 ==> forall c | 0 < c < |s| && Parent(c) == j :: !less(s[c], s[Parent(j)]))
  }

  function Swapped<T>(s: seq<T>, i: nat, j: nat): (r: seq<T>)
    requires i < |s| && j < |s|
    ensures |r| == |s|
    ensures multiset(r) == multiset(s)
    ensures forall k | 0 <= k < |s| :: r[k] == if k == i then s[j] else if k == j then s[i] else s[k]
  {
    s[i := s[j]][j := s[i]]
  }

  lemma DownStops<T(!new)>(less: (T, T) -> bool, s: seq<T>, lo: nat, n: nat, i: nat)
    requires SiftingDown(less, s, lo, n, i)
    requires 2 * i + 1 < n ==> !less(s[2 * i + 1], s[i])
    requires 2 * i + 2 < n ==> !less(s[2 * i + 2], s[i])
    ensures HeapFrom(less, s, lo, n)
  {
    forall c | 0 < c < n && lo <= Parent(c) ensures !less(s[c], s[Parent(c)]) {
      if Parent(c) == i {
        assert c == 2 * i + 1 || c == 2 * i + 2;
      }
    }
  }

  lemma DownStep<T(!new)>(less: (T, T) -> bool, s: seq<T>, lo: nat, n: nat, i: nat, j: nat)
    requires StrictWeakOrder(less) && SiftingDown(less, s, lo, n, i)
    requires 0 < j < n && Parent(j) == i && less(s[j], s[i])
    requires 2 * i + 1 < n ==> !less(s[2 * i + 1], s[j])
    requires 2 * i + 2 < n ==> !less(s[2 * i + 2], s[j])
    ensures SiftingDown(less, Swapped(s, i, j), lo, n, j)
  {
    var r := Swapped(s, i, j);
    forall c | 0 < c < n && lo <= Parent(c) && Parent(c) != j ensures !less(r[c], r[Parent(c)]) {
      if Parent(c) == i {
        assert c == 2 * i + 1 || c == 2 * i + 2;
        assert Consistent(less, s[j], s[i], s[i]);
      }
    }
    forall c | 0 < c < n && Parent(c) == j ensures !less(r[c], r[i]) {
      assert c != i && c != j && r[c] == s[c];
    }
  }

  lemma UpStep<T(!new)>(less: (T, T) -> bool, s: seq<T>, j: nat)
    requires StrictWeakOrder(less) && SiftingUp(less, s, j)
    requires j > 0 && less(s[j], s[Parent(j)])
    ensures SiftingUp(less, Swapped(s, Parent(j), j), Parent(j))
  {
    var i := Parent(j);
    var r := Swapped(s, i, j);
    forall c | 0 < c < |r| && c != i ensures !less(r[c], r[Parent(c)]) {
      assert Consistent(less, s[j], s[i], s[c]);
      assert Consistent(less, s[j], s[i], s[i]);
    }
    if i > 0 {
      forall c | 0 < c < |r| && Parent(c) == i ensures !less(r[c], r[Parent(i)]) {
        assert Consistent(less, s[Parent(i)], s[i], s[c]);
        assert r[c] == if c == j then s[i] else s[c];
      }
    }
  }

  /** The child of `i` to compare it with: the left one unless the right one is less. */
  function LesserChild<T>(less: (T, T) -> bool, s: seq<T>, n: nat, i: nat): (j: nat)
    requires 2 * i + 1 < n <= |s|
    ensures i < j < n && Parent(j) == i
  {
    if 2 * i + 2 < n && less(s[2 * i + 2], s[2 * i + 1]) then 2 * i + 2 else 2 * i + 1
  }

  /** `s` with the item at `i` sunk among the first `n`. */
  function Sunk<T>(less: (T, T) -> bool, s: seq<T>, n: nat, i: nat): (r: seq<T>)
    requires n <= |s|
    ensures |r| == |s| && multiset(r) == multiset(s)
    ensures forall k | n <= k < |s| :: r[k] == s[k]
    decreases n - i
  {
    if 2 * i + 1 >= n then s else
    var j := LesserChild(less, s, n, i);
    if !less(s[j], s[i]) then s else Sunk(less, Swapped(s, i, j), n, j)
  }

  lemma {:induction false} SunkIsHeap<T(!new)>(less: (T, T) -> bool, s: seq<T>, lo: nat, n: nat, i: nat)
    requires StrictWeakOrder(less) && SiftingDown(less, s, lo, n, i)
    ensures HeapFrom(less, Sunk(less, s, n, i), lo, n)
    decreases n - i
  {
    if 2 * i + 1 >= n {
      DownStops(less, s, lo, n, i);
    } else {
      var left := 2 * i + 1;
      var j := LesserChild(less, s, n, i);
      assert Consistent(less, s[j], s[left], s[i]) && Consistent(less, s[j], s[j], s[j]);
      if !less(s[j], s[i]) {
        assert left + 1 < n ==> Consistent(less, s[i], s[j], s[left + 1]);
        assert Consistent(less, s[i], s[j], s[left]);
        DownStops(less, s, lo, n, i);
      } else {
        DownStep(less, s, lo, n, i, j);
        SunkIsHeap(less, Swapped(s, i, j), lo, n, j);
      }
    }
  }

  /** `s` with the item at `j` raised. */
  function Raised<T>(less: (T, T) -> bool, s: seq<T>, j: nat): (r: seq<T>)
    requires j < |s|
    ensures |r| == |s| && multiset(r) == multiset(s)
    decreases j
  {
    if j == 0 || !less(s[j], s[Parent(j)]) then s else Raised(less, Swapped(s, Parent(j), j), Parent(j))
  }

  lemma {:induction false} RaisedIsHeap<T(!new)>(less: (T, T) -> bool, s: seq<T>, j: nat)
    requires StrictWeakOrder(less) && SiftingUp(less, s, j)
    ensures HeapFrom(less, Raised(less, s, j), 0, |s|)
    decreases j
  {
    if j > 0 && less(s[j], s[Parent(j)]) {
      UpStep(less, s, j);
      RaisedIsHeap(less, Swapped(s, Parent(j), j), Parent(j));
    }
  }

  lemma {:induction false} RootIsLeast<T(!new)>(less: (T, T) -> bool, s: seq<T>, c: nat)
    requires StrictWeakOrder(less) && HeapFrom(less, s, 0, |s|) && c < |s|
    ensures !less(s[c], s[0])
  {
    if c == 0 {
      assert Consistent(less, s[0], s[0], s[0]);
    } else {
      RootIsLeast(less, s, Parent(c));
      assert Consistent(less, s[0], s[Parent(c)], s[c]);
    }
  }

  lemma RootIsLeastItem<T(!new)>(less: (T, T) -> bool, s: seq<T>)
    requires StrictWeakOrder(less) && HeapFrom(less, s, 0, |s|) && s != []
    ensures forall e <- s :: !less(e, s[0])
  {
    forall e | e in s ensures !less(e, s[0]) {
      var c :| 0 <= c < |s| && s[c] == e;
      RootIsLeast(less, s, c);
    }
  }

  lemma SwappedRootSinks<T(!new)>(less: (T, T) -> bool, s: seq<T>)
    requires StrictWeakOrder(less) && HeapFrom(less, s, 0, |s|) && s != []
    ensures var n := |s| - 1;
            HeapFrom(less, Sunk(less, Swapped(s, 0, n), n, 0)[..n], 0, n)
  {
    var n := |s| - 1;
    if n > 0 {
      assert SiftingDown(less, Swapped(s, 0, n), 0, n, 0);
      SunkIsHeap(less, Swapped(s, 0, n), 0, n, 0);
    }
  }

  lemma DropLast<T>(r: seq<T>)
    requires r != []
    ensures multiset(r[..|r| - 1]) == multiset(r) - multiset{r[|r| - 1]}
  {
    assert r == r[..|r| - 1] + [r[|r| - 1]];
  }

  /** Swapping the root to the end, sinking the new root and dropping the end removes a least item. */
  lemma PopTakesLeast<T(!new)>(less: (T, T) -> bool, s: seq<T>)
    requires StrictWeakOrder(less) && HeapFrom(less, s, 0, |s|) && s != []
    ensures var n := |s| - 1;
            var r := Sunk(less, Swapped(s, 0, n), n, 0);
            && r[n] == s[0] && (forall e <- s :: !less(e, r[n]))
            && HeapFrom(less, r[..n], 0, n) && multiset(r[..n]) == multiset(s) - multiset{r[n]}
  {
    RootIsLeastItem(less, s);
    SwappedRootSinks(less, s);
    DropLast(Sunk(less, Swapped(s, 0, |s| - 1), |s| - 1, 0));
  }

  class MinHeap<T(!new)> {
    const less: (T, T) -> bool
    var items: seq<T>

    constructor (less: (T, T) -> bool)
      ensures this.less == less && items == []
    {
      this.less := less;
      items := [];
    }

    ghost predicate Valid()
      reads this
    {
      StrictWeakOrder(less) && HeapFrom(less, items, 0, |items|)
    }

    method Swap(i: nat, j: nat)
      requires i < |items| && j < |items|
      modifies this
      ensures items == Swapped(old(items), i, j)
    {
      items := items[i := items[j]][j := items[i]];
    }

    method Down(start: nat, n: nat)
      requires n <= |items|
      modifies this
      ensures items == Sunk(less, old(items), n, start)
    {
      var i := start;
      while true
        invariant n <= |items| && Sunk(less, items, n, i) == Sunk(less, old(items), n, start)
        decreases n - i
      {
        var left := 2 * i + 1;
        if left >= n {
          break;
        }
        var j := left;
        if left + 1 < n && less(items[left + 1], items[left]) {
          j := left + 1;
        }
        if !less(items[j], items[i]) {
          break;
        }
        Swap(i, j);
        i := j;
      }
    }

    method Up(last: nat)
      requires last < |items|
      modifies this
      ensures items == Raised(less, old(items), last)
    {
      var j: nat := last;
      while true
        invariant j < |items| && Raised(less, items, j) == Raised(less, old(items), last)
        decreases j
      {
        if j == 0 || !less(items[j], items[Parent(j)]) {
          break;
        }
        Swap(Parent(j), j);
        j := Parent(j);
      }
    }

    /** Orders whatever the items are. */
    method Init()
      requires StrictWeakOrder(less)
      modifies this
      ensures Valid() && multiset(items) == multiset(old(items))
    {
      var i := |items| / 2;
      while i > 0
        invariant 0 <= i <= |items| / 2
        invariant multiset(items) == multiset(old(items))
        invariant HeapFrom(less, items, i, |items|)
      {
        i := i - 1;
        SunkIsHeap(less, items, i, |items|, i);
        Down(i, |items|);
      }
    }

    method Push(e: T)
      requires Valid()
      modifies this
      ensures Valid() && multiset(items) == multiset(old(items)) + multiset{e}
    {
      items := items + [e];
      RaisedIsHeap(less, items, |items| - 1);
      Up(|items| - 1);
    }

    method Pop() returns (top: T)
      requires Valid() && items != []
      modifies this
      ensures Valid() && multiset(items) == multiset(old(items)) - multiset{top}
      ensures top in old(items) && forall e <- old(items) :: !less(e, top)
    {
      PopTakesLeast(less, items);
      var n := |items| - 1;
      Swap(0, n);
      Down(0, n);
      top := items[n];
      items := items[..n];
    }
  }
}
