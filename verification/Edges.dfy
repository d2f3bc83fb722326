/** A graph's node table, and what its parent and child lists must hold. */
module Edges {
  import opened Base
  import opened Programs

  /** Nodes are known by their names, which never change. */
  datatype Entry = Entry(node: Node, parents: seq<string>, children: seq<string>)

  type Entries = map<string, Entry>

  /** How many of `outs` are among `ins`. */
  function Matches(outs: seq<string>, ins: seq<string>): nat {
    if outs == [] then 0 else
    var n := |outs| - 1;
    Matches(outs[..n], ins) + if outs[n] in ins then 1 else 0
  }

  /** How many edges run from `u` to `v`; a node has none to itself. */
  function Links(u: Node, v: Node): nat {
    if u.name == v.name then 0 else Matches(u.outputs, v.inputs)
  }

  /** The outputs of `u` that `v` reads, by their places. */
  function ReadPlaces(outs: seq<string>, ins: seq<string>): set<nat> {
    set i: nat | i < |outs| && outs[i] in ins
  }

  lemma {:induction false} MatchesCount(outs: seq<string>, ins: seq<string>)
    ensures Matches(outs, ins) == |ReadPlaces(outs, ins)|
  {
    if outs != [] {
      var n := |outs| - 1;
      MatchesCount(outs[..n], ins);
      assert ReadPlaces(outs, ins) == ReadPlaces(outs[..n], ins) + if outs[n] in ins then {n} else {};
    }
  }

  /** Between different nodes there is an edge for every output of the first that the second reads. */
  lemma LinksCount(u: Node, v: Node)
    ensures Links(u, v) == if u.name == v.name then 0 else |ReadPlaces(u.outputs, v.inputs)|
  {
    MatchesCount(u.outputs, v.inputs);
  }

  predicate Named(e: Entries) {
    forall x <- e :: e[x].node.name == x
  }

  function ChildCount(e: Entries, x: string, y: string): nat
    requires x in e
  {
    multiset(e[x].children)[y]
  }

  function ParentCount(e: Entries, x: string, y: string): nat
    requires y in e
  {
    multiset(e[y].parents)[x]
  }

  predicate Closed(e: Entries) {
    forall x <- e :: (forall y <- e[x].children :: y in e) && forall y <- e[x].parents :: y in e
  }

  predicate PairRight(e: Entries, x: string, y: string, edges: nat)
    requires x in e && y in e
  {
    ChildCount(e, x, y) == edges && ParentCount(e, x, y) == edges
  }

  /** The edges between the pairs in `pairs` are recorded, and no others. */
  predicate LinkedFor(e: Entries, pairs: set<(string, string)>) {
    Closed(e) && forall x <- e, y <- e :: PairRight(e, x, y, if (x, y) in pairs then Links(e[x].node, e[y].node) else 0)
  }

  /** Every edge is recorded at both ends, once per matching tensor. */
  predicate EdgesRight(e: Entries) {
    Closed(e) && forall x <- e, y <- e :: PairRight(e, x, y, Links(e[x].node, e[y].node))
  }

  function Cleared(e: Entries): Entries {
    map x <- e :: Entry(e[x].node, [], [])
  }

  lemma ClearedLinks(e: Entries)
    ensures LinkedFor(Cleared(e), {})
  {
  }

  lemma LinkedForAll(e: Entries, pairs: set<(string, string)>)
    requires LinkedFor(e, pairs) && forall x <- e, y <- e :: (x, y) in pairs
    ensures EdgesRight(e)
  {
  }

  /** The table with `k` more edges from `u` to `v`. */
  function Linked(e: Entries, u: string, v: string, k: nat): Entries
    requires u in e && v in e && u != v
  {
    e[u := e[u].(children := e[u].children + seq(k, _ => v))]
     [v := e[v].(parents := e[v].parents + seq(k, _ => u))]
  }

  lemma {:induction false} CountCopies(x: string, k: nat, y: string)
    ensures multiset(seq(k, _ => x))[y] == if x == y then k else 0
  {
    if k > 0 {
      assert seq(k, _ => x) == seq(k - 1, _ => x) + [x];
      CountCopies(x, k - 1, y);
    }
  }

  lemma LinkedOneMore(e: Entries, u: string, v: string, k: nat)
    requires u in e && v in e && u != v
    ensures var f := Linked(e, u, v, k);
            Linked(e, u, v, k + 1) ==
            f[u := f[u].(children := f[u].children + [v])][v := f[v].(parents := f[v].parents + [u])]
  {
    assert seq(k + 1, _ => v) == seq(k, _ => v) + [v];
    assert seq(k + 1, _ => u) == seq(k, _ => u) + [u];
    assert e[u].children + (seq(k, _ => v) + [v]) == e[u].children + seq(k, _ => v) + [v];
    assert e[v].parents + (seq(k, _ => u) + [u]) == e[v].parents + seq(k, _ => u) + [u];
  }

  lemma LinkedNone(e: Entries, u: string, v: string)
    requires u in e && v in e && u != v
    ensures Linked(e, u, v, 0) == e
  {
    assert e[u].children + seq(0, _ => v) == e[u].children;
    assert e[v].parents + seq(0, _ => u) == e[v].parents;
  }

  lemma LinkedCounts(e: Entries, u: string, v: string, k: nat, x: string, y: string)
    requires u in e && v in e && u != v && x in e && y in e
    ensures var f := Linked(e, u, v, k);
            && ChildCount(f, x, y) == ChildCount(e, x, y) + (if (x, y) == (u, v) then k else 0)
            && ParentCount(f, x, y) == ParentCount(e, x, y) + (if (x, y) == (u, v) then k else 0)
            && f[x].node == e[x].node
  {
    CountCopies(v, k, y);
    CountCopies(u, k, x);
  }

  lemma LinkedClosed(e: Entries, u: string, v: string, k: nat)
    requires u in e && v in e && u != v && Closed(e)
    ensures Closed(Linked(e, u, v, k))
  {
    var f := Linked(e, u, v, k);
    forall x, y | x in f && y in f[x].children ensures y in f {
      assert y in e[x].children || y == v;
    }
    forall x, y | x in f && y in f[x].parents ensures y in f {
      assert y in e[x].parents || y == u;
    }
  }

  /** Recording the edges of one more pair. */
  lemma LinkPairRight(e: Entries, pairs: set<(string, string)>, u: string, v: string)
    requires LinkedFor(e, pairs) && Named(e) && u in e && v in e && u != v && (u, v) !in pairs
    ensures LinkedFor(Linked(e, u, v, Links(e[u].node, e[v].node)), pairs + {(u, v)})
  {
    var k := Links(e[u].node, e[v].node);
    var f := Linked(e, u, v, k);
    LinkedClosed(e, u, v, k);
    hide Linked, ChildCount, ParentCount, Closed;
    forall x, y | x in f && y in f
      ensures PairRight(f, x, y, if (x, y) in pairs + {(u, v)} then Links(f[x].node, f[y].node) else 0)
    {
      LinkedCounts(e, u, v, k, x, y);
      LinkedCounts(e, u, v, k, y, x);
      assert PairRight(e, x, y, if (x, y) in pairs then Links(e[x].node, e[y].node) else 0);
    }
  }

  /** A node has no edges to itself to record. */
  lemma SelfPairRight(e: Entries, pairs: set<(string, string)>, u: string)
    requires LinkedFor(e, pairs) && u in e
    ensures LinkedFor(e, pairs + {(u, u)})
  {
  }

  /** The recorded edges depend, up to the order of the lists, only on the nodes. */
  lemma EdgesAreRebuilt(a: Entries, b: Entries, x: string)
    requires EdgesRight(a) && EdgesRight(b) && a.Keys == b.Keys && x in a
    requires forall y <- a :: a[y].node == b[y].node
    ensures multiset(a[x].children) == multiset(b[x].children) && multiset(a[x].parents) == multiset(b[x].parents)
  {
    forall y: string
      ensures multiset(a[x].children)[y] == multiset(b[x].children)[y]
      ensures multiset(a[x].parents)[y] == multiset(b[x].parents)[y]
    {
      if y in a {
        assert PairRight(a, x, y, Links(a[x].node, a[y].node)) && PairRight(b, x, y, Links(b[x].node, b[y].node));
        assert PairRight(a, y, x, Links(a[y].node, a[x].node)) && PairRight(b, y, x, Links(b[y].node, b[x].node));
      } else {
        assert y !in a[x].children && y !in b[x].children && y !in a[x].parents && y !in b[x].parents;
      }
    }
  }

  lemma {:induction false} MatchesSome(outs: seq<string>, ins: seq<string>)
    ensures Matches(outs, ins) > 0 <==> exists o <- outs :: o in ins
  {
    if outs != [] {
      var n := |outs| - 1;
      MatchesSome(outs[..n], ins);
      assert outs == outs[..n] + [outs[n]];
    }
  }

  /** `y` is a child of `x` exactly when it reads one of `x`'s outputs. */
  lemma ChildReads(e: Entries, x: string, y: string)
    requires EdgesRight(e) && Named(e) && x in e && y in e && x != y
    ensures y in e[x].children <==> exists o <- e[x].node.outputs :: o in e[y].node.inputs
    ensures x in e[y].parents <==> y in e[x].children
  {
    assert PairRight(e, x, y, Links(e[x].node, e[y].node));
    MatchesSome(e[x].node.outputs, e[y].node.inputs);
    assert y in e[x].children <==> multiset(e[x].children)[y] > 0;
    assert x in e[y].parents <==> multiset(e[y].parents)[x] > 0;
  }
}
