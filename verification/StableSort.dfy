/** Stable sorting by key as a reference, and merging several sorted streams in (key, source) order. */
module StableSorting {
  import opened Base
  import opened Text
  import opened Records

  predicate KeySorted(s: seq<Record>) {
    forall i, j | 0 <= i < j < |s| :: !Less(s[j].key, s[i].key)
  }

  /** The values a sequence holds for one key, in order. */
  function Values(s: seq<Record>, k: string): seq<string> {
    if s == [] then []
    else (if s[0].key == k then [s[0].value] else []) + Values(s[1..], k)
  }

  lemma {:induction false} ValuesAppend(a: seq<Record>, b: seq<Record>, k: string)
    ensures Values(a + b, k) == Values(a, k) + Values(b, k)
  {
    if a == [] {
      assert a + b == b;
    } else {
      assert (a + b)[1..] == a[1..] + b;
      ValuesAppend(a[1..], b, k);
    }
  }

  lemma {:induction false} ValuesEmpty(s: seq<Record>, k: string)
    ensures Values(s, k) == [] <==> forall r <- s :: r.key != k
  {
    if s != [] {
      ValuesEmpty(s[1..], k);
      assert s == [s[0]] + s[1..];
    }
  }

  lemma KeySortedTail(s: seq<Record>)
    requires KeySorted(s) && s != []
    ensures KeySorted(s[1..])
    ensures forall r <- s[1..] :: !Less(r.key, s[0].key)
  {
    forall r | r in s[1..] ensures !Less(r.key, s[0].key) {
      var j :| 0 <= j < |s[1..]| && s[1..][j] == r;
      assert s[j + 1] == r;
    }
  }

  lemma KeySortedCons(r: Record, s: seq<Record>)
    requires KeySorted(s)
    requires forall x <- s :: !Less(x.key, r.key)
    ensures KeySorted([r] + s)
  {
  }

  /** A key-sorted sequence is determined by the values it holds for each key. */
  lemma {:induction false} SortedUnique(a: seq<Record>, b: seq<Record>)
    requires KeySorted(a) && KeySorted(b)
    requires forall k :: Values(a, k) == Values(b, k)
    ensures a == b
  {
    if a == [] {
      assert Values(b, if b == [] then [] else b[0].key) == [];
    } else {
      var k := a[0].key;
      assert Values(b, k) != [];
      ValuesEmpty(b, k);
      ValuesEmpty(a, b[0].key);
      FirstIsLeast(a, b[0].key);
      FirstIsLeast(b, k);
      Antisymmetric(k, b[0].key);
      assert a[0].value == Values(a, k)[0] == Values(b, k)[0] == b[0].value;
      forall q ensures Values(a[1..], q) == Values(b[1..], q) {
        var head := if q == k then [a[0].value] else [];
        assert Values(a, q) == head + Values(a[1..], q) && Values(b, q) == head + Values(b[1..], q);
        assert Values(a[1..], q) == Values(a, q)[|head|..] && Values(b[1..], q) == Values(b, q)[|head|..];
      }
      KeySortedTail(a);
      KeySortedTail(b);
      SortedUnique(a[1..], b[1..]);
      assert a == [a[0]] + a[1..] && b == [b[0]] + b[1..];
    }
  }

  lemma FirstIsLeast(s: seq<Record>, k: string)
    requires KeySorted(s) && exists r <- s :: r.key == k
    ensures !Less(k, s[0].key)
  {
    var i :| 0 <= i < |s| && s[i].key == k;
    Irreflexive(k);
  }

  function InsertStable(r: Record, s: seq<Record>): seq<Record> {
    if s == [] || !Less(s[0].key, r.key) then [r] + s else [s[0]] + InsertStable(r, s[1..])
  }

  function StableSort(s: seq<Record>): seq<Record> {
    if s == [] then [] else InsertStable(s[0], StableSort(s[1..]))
  }

  lemma {:induction false} InsertStableSorts(r: Record, s: seq<Record>)
    requires KeySorted(s)
    ensures KeySorted(InsertStable(r, s))
    ensures forall x :: x in InsertStable(r, s) <==> x == r || x in s
  {
    if s == [] {
    } else if !Less(s[0].key, r.key) {
      KeySortedTail(s);
      forall x | x in s ensures !Less(x.key, r.key) {
        if x != s[0] {
          assert x in s[1..];
          NotLessTransitive(r.key, s[0].key, x.key);
        }
      }
      KeySortedCons(r, s);
    } else {
      KeySortedTail(s);
      InsertStableSorts(r, s[1..]);
      Asymmetric(s[0].key, r.key);
      KeySortedCons(s[0], InsertStable(r, s[1..]));
      assert s == [s[0]] + s[1..];
    }
  }

  lemma {:induction false} InsertStableValues(r: Record, s: seq<Record>, k: string)
    requires KeySorted(s)
    ensures Values(InsertStable(r, s), k) == (if r.key == k then [r.value] else []) + Values(s, k)
  {
    if s == [] || !Less(s[0].key, r.key) {
      assert ([r] + s)[1..] == s;
    } else {
      KeySortedTail(s);
      InsertStableValues(r, s[1..], k);
      assert ([s[0]] + InsertStable(r, s[1..]))[1..] == InsertStable(r, s[1..]);
      Irreflexive(r.key);
    }
  }

  /** The reference sorts by key and keeps the order of equal keys. */
  lemma {:induction false} StableSortSorts(s: seq<Record>)
    ensures KeySorted(StableSort(s))
    ensures forall k :: Values(StableSort(s), k) == Values(s, k)
  {
    if s != [] {
      StableSortSorts(s[1..]);
      InsertStableSorts(s[0], StableSort(s[1..]));
      forall k ensures Values(StableSort(s), k) == Values(s, k) {
        InsertStableValues(s[0], StableSort(s[1..]), k);
      }
    }
  }

  lemma SortedIsStableSort(a: seq<Record>, s: seq<Record>)
    requires KeySorted(a)
    requires forall k :: Values(a, k) == Values(s, k)
    ensures a == StableSort(s)
  {
    StableSortSorts(s);
    SortedUnique(a, StableSort(s));
  }

  /** The keys never fall, in dictionary order. */
  predicate KeysRise(s: seq<Record>) {
    forall i, j | 0 <= i < j < |s| :: s[i].key == s[j].key || Precedes(s[i].key, s[j].key)
  }

  lemma KeySortedRises(s: seq<Record>)
    ensures KeySorted(s) <==> KeysRise(s)
  {
    forall i, j | 0 <= i < j < |s|
      ensures !Less(s[j].key, s[i].key) <==> s[i].key == s[j].key || Precedes(s[i].key, s[j].key)
    {
      LessIsPrecedes(s[i].key, s[j].key);
      Total(s[i].key, s[j].key);
      if Less(s[i].key, s[j].key) {
        Asymmetric(s[i].key, s[j].key);
      }
      Irreflexive(s[i].key);
    }
  }

  /** A stable sort has the keys in dictionary order, the records of each key in their own order, and no others. */
  lemma StableSortRises(s: seq<Record>)
    ensures KeysRise(StableSort(s))
    ensures forall k :: Values(StableSort(s), k) == Values(s, k)
  {
    StableSortSorts(s);
    KeySortedRises(StableSort(s));
  }

  // ----- merging -----

  function Flatten<T>(ss: seq<seq<T>>): seq<T> {
    if ss == [] then [] else ss[0] + Flatten(ss[1..])
  }

  /** `a` at source `i` goes before `b` at source `j`. */
  predicate Before(a: string, i: nat, b: string, j: nat) {
    Less(a, b) || (a == b && i < j)
  }

  /** The source whose first record goes first. */
  predicate IsNext(pending: seq<seq<Record>>, i: nat) {
    && i < |pending| && pending[i] != []
    && forall j: nat | j < |pending| && pending[j] != [] && j != i ::
         Before(pending[i][0].key, i, pending[j][0].key, j)
  }

  predicate Exhausted(pending: seq<seq<Record>>) {
    forall p <- pending :: p == []
  }

  function NextSource(pending: seq<seq<Record>>): (i: nat)
    requires !Exhausted(pending)
    ensures IsNext(pending, i)
  {
    var n := |pending| - 1;
    assert pending == pending[..n] + [pending[n]];
    if Exhausted(pending[..n]) then
      assert forall j | 0 <= j < n :: pending[j] in pending[..n];
      n
    else
    var i := NextSource(pending[..n]);
    if pending[n] != [] then
      Total(pending[i][0].key, pending[n][0].key);
      if Less(pending[n][0].key, pending[i][0].key) then
        LastGoesFirst(pending, i);
        n
      else i
    else i
  }

  lemma LastGoesFirst(pending: seq<seq<Record>>, i: nat)
    requires |pending| > 0 && pending[|pending| - 1] != []
    requires IsNext(pending[..|pending| - 1], i)
    requires Less(pending[|pending| - 1][0].key, pending[i][0].key)
    ensures IsNext(pending, |pending| - 1)
  {
    var n := |pending| - 1;
    forall j: nat | j < n && pending[j] != []
      ensures Before(pending[n][0].key, n, pending[j][0].key, j)
    {
      if j != i {
        assert Before(pending[i][0].key, i, pending[..n][j][0].key, j);
        if Less(pending[i][0].key, pending[j][0].key) {
          Transitive(pending[n][0].key, pending[i][0].key, pending[j][0].key);
        }
      }
    }
  }

  function Pop(pending: seq<seq<Record>>, i: nat): seq<seq<Record>>
    requires i < |pending| && pending[i] != []
  {
    pending[i := pending[i][1..]]
  }

  lemma {:induction false} FlattenSplit<T>(ss: seq<seq<T>>, i: nat)
    requires i < |ss|
    ensures Flatten(ss) == Flatten(ss[..i]) + ss[i] + Flatten(ss[i + 1..])
  {
    if i == 0 {
    } else {
      FlattenSplit(ss[1..], i - 1);
      assert ss[1..][..i - 1] == ss[..i][1..];
      assert ss[1..][i..] == ss[i + 1..];
    }
  }

  lemma Regroup<T>(a: seq<T>, b: seq<T>, c: seq<T>)
    requires b != []
    ensures a + b + c == a + [b[0]] + (b[1..] + c)
    ensures a + b[1..] + c == a + (b[1..] + c)
  {
  }

  lemma FlattenPop(pending: seq<seq<Record>>, i: nat)
    requires i < |pending| && pending[i] != []
    ensures Flatten(pending) == Flatten(pending[..i]) + [pending[i][0]] + (pending[i][1..] + Flatten(pending[i + 1..]))
    ensures Flatten(Pop(pending, i)) == Flatten(pending[..i]) + (pending[i][1..] + Flatten(pending[i + 1..]))
  {
    var after := Pop(pending, i);
    assert after[..i] == pending[..i] && after[i + 1..] == pending[i + 1..] && after[i] == pending[i][1..];
    FlattenSplit(pending, i);
    FlattenSplit(after, i);
    Regroup(Flatten(pending[..i]), pending[i], Flatten(pending[i + 1..]));
  }

  /** Taking the next record again and again until every source is used up. */
  function Drain(pending: seq<seq<Record>>): seq<Record>
    decreases |Flatten(pending)|
  {
    if Exhausted(pending) then [] else
    var i := NextSource(pending);
    FlattenPop(pending, i);
    [pending[i][0]] + Drain(Pop(pending, i))
  }

  lemma {:induction false} FlattenHolds<T>(ss: seq<seq<T>>, x: T)
    ensures x in Flatten(ss) <==> exists i :: 0 <= i < |ss| && x in ss[i]
  {
    if ss != [] {
      FlattenHolds(ss[1..], x);
      if x in Flatten(ss[1..]) {
        var i :| 0 <= i < |ss[1..]| && x in ss[1..][i];
        assert x in ss[i + 1];
      }
      if i :| 0 <= i < |ss| && x in ss[i] {
        assert i > 0 ==> x in ss[1..][i - 1];
      }
    }
  }

  /** No waiting record has a key below the next one, and none before it in source order has its key. */
  lemma NextIsLeast(pending: seq<seq<Record>>, i: nat, r: Record)
    requires forall p <- pending :: KeySorted(p)
    requires IsNext(pending, i)
    ensures r in Flatten(pending) ==> !Less(r.key, pending[i][0].key)
    ensures r in Flatten(pending[..i]) ==> r.key != pending[i][0].key
  {
    var k := pending[i][0].key;
    forall j: nat | j < |pending| && r in pending[j]
      ensures !Less(r.key, k) && (j < i ==> r.key != k)
    {
      var p := pending[j];
      assert KeySorted(p);
      var n :| 0 <= n < |p| && p[n] == r;
      Irreflexive(r.key);
      assert !Less(r.key, p[0].key);
      if j != i {
        assert Before(k, i, p[0].key, j);
        if Less(k, p[0].key) {
          Asymmetric(k, p[0].key);
          NotLessTransitive(k, p[0].key, r.key);
        }
      }
    }
    FlattenHolds(pending, r);
    FlattenHolds(pending[..i], r);
  }

  /** A key's values are still in order when the first of its records goes first. */
  lemma FirstOfItsKey(front: seq<Record>, head: Record, back: seq<Record>, k: string)
    requires head.key == k ==> forall r <- front :: r.key != k
    ensures Values(front + [head] + back, k) == (if head.key == k then [head.value] else []) + Values(front + back, k)
  {
    ValuesAppend(front + [head], back, k);
    ValuesAppend(front, [head], k);
    ValuesAppend(front, back, k);
    if head.key == k {
      ValuesEmpty(front, k);
    }
  }

  lemma PopValues(pending: seq<seq<Record>>, i: nat, k: string)
    requires forall p <- pending :: KeySorted(p)
    requires IsNext(pending, i)
    ensures var head := pending[i][0];
            Values(Flatten(pending), k) ==
            (if head.key == k then [head.value] else []) + Values(Flatten(Pop(pending, i)), k)
  {
    var head := pending[i][0];
    var front, back := Flatten(pending[..i]), pending[i][1..] + Flatten(pending[i + 1..]);
    FlattenPop(pending, i);
    hide Flatten, Pop, IsNext, KeySorted, Values;
    if k == head.key {
      forall r | r in front ensures r.key != k {
        NextIsLeast(pending, i, r);
      }
    }
    FirstOfItsKey(front, head, back, k);
  }

  lemma {:induction false} ExhaustedIsEmpty(pending: seq<seq<Record>>)
    requires Exhausted(pending)
    ensures Flatten(pending) == []
  {
    if pending != [] {
      assert pending[0] in pending;
      assert forall p <- pending[1..] :: p in pending;
      ExhaustedIsEmpty(pending[1..]);
    }
  }

  /** Draining key-sorted sources yields the stable sort of their concatenation in source order. */
  lemma {:induction false} DrainIsStableSort(pending: seq<seq<Record>>)
    requires forall p <- pending :: KeySorted(p)
    ensures Drain(pending) == StableSort(Flatten(pending))
    decreases |Flatten(pending)|
  {
    if Exhausted(pending) {
      ExhaustedIsEmpty(pending);
    } else {
      var i := NextSource(pending);
      var rest := Pop(pending, i);
      FlattenPop(pending, i);
      KeySortedTail(pending[i]);
      DrainIsStableSort(rest);
      StableSortSorts(Flatten(rest));
      forall r | r in Drain(rest) ensures !Less(r.key, pending[i][0].key) {
        ValuesEmpty(Drain(rest), r.key);
        ValuesEmpty(Flatten(rest), r.key);
        var x: Record :| x in Flatten(rest) && x.key == r.key;
        NextIsLeast(pending, i, x);
      }
      KeySortedCons(pending[i][0], Drain(rest));
      forall k ensures Values(Drain(pending), k) == Values(Flatten(pending), k) {
        PopValues(pending, i, k);
      }
      SortedIsStableSort(Drain(pending), Flatten(pending));
    }
  }
}
