/** Paths, cycles, orders and levels over a node table. */
module Paths {
  import opened Base
  import opened Programs
  import opened Edges

  predicate Edge(e: Entries, x: string, y: string) {
    x in e && y in e[x].children
  }

  predicate Path(e: Entries, path: seq<string>) {
    && path != [] && path[0] in e
    && forall i | 0 <= i < |path| - 1 :: Edge(e, path[i], path[i + 1])
  }

  predicate Cycle(e: Entries, path: seq<string>) {
    Path(e, path) && |path| >= 2 && path[0] == path[|path| - 1]
  }

  predicate NoRepeats(s: seq<string>) {
    forall i, j | 0 <= i < j < |s| :: s[i] != s[j]
  }

  /** A post-order prefix: each node comes after all its children. */
  predicate Settled(e: Entries, order: seq<string>) {
    && NoRepeats(order)
    && (forall i | 0 <= i < |order| :: order[i] in e)
    && forall i, y | 0 <= i < |order| && y in e[order[i]].children :: y in order[..i]
  }

  lemma SettledMore(e: Entries, order: seq<string>, n: string)
    requires Settled(e, order) && n in e && n !in order && forall y <- e[n].children :: y in order
    ensures Settled(e, order + [n])
  {
    var longer := order + [n];
    forall i, y | 0 <= i < |longer| && y in e[longer[i]].children ensures y in longer[..i] {
      if i < |order| {
        assert longer[..i] == order[..i];
      } else {
        assert longer[..i] == order;
      }
    }
  }

  /** Extending the path on the stack by an edge. */
  lemma PathMore(e: Entries, path: seq<string>, n: string)
    requires n in e && (path == [] || (Path(e, path) && Edge(e, path[|path| - 1], n)))
    ensures Path(e, path + [n])
  {
    var longer := path + [n];
    forall i | 0 <= i < |longer| - 1 ensures Edge(e, longer[i], longer[i + 1]) {
      if i < |path| - 1 {
        assert Edge(e, path[i], path[i + 1]);
      }
    }
  }

  /** Producers before consumers. */
  predicate TopOrder(e: Entries, order: seq<string>) {
    && NoRepeats(order) && (set x <- order) == e.Keys
    && forall i, j | 0 <= i <= j < |order| :: !Edge(e, order[j], order[i])
  }

  function Reversed<T>(s: seq<T>): (r: seq<T>)
    ensures |r| == |s| && forall i | 0 <= i < |s| :: r[i] == s[|s| - 1 - i]
  {
    seq(|s|, i requires 0 <= i < |s| => s[|s| - 1 - i])
  }

  lemma ReversedSettled(e: Entries, order: seq<string>)
    requires Settled(e, order) && (set x <- order) == e.Keys
    ensures TopOrder(e, Reversed(order))
  {
    var r := Reversed(order);
    assert (set x <- r) == (set x <- order) by {
      forall x | x in order ensures x in r {
        var i :| 0 <= i < |order| && order[i] == x;
        assert r[|order| - 1 - i] == x;
      }
    }
    forall i, j | 0 <= i <= j < |r| ensures !Edge(e, r[j], r[i]) {
      var a, b := |order| - 1 - j, |order| - 1 - i;
      var x, y, earlier := order[a], order[b], order[..a];
      assert y !in earlier;
      assert x in e && (y in e[x].children ==> y in earlier);
    }
  }

  function Position(s: seq<string>, x: string): (i: nat)
    requires x in s
    ensures i < |s| && s[i] == x
  {
    if s[0] == x then 0 else Position(s[1..], x) + 1
  }

  lemma {:induction false} PathClimbs(e: Entries, order: seq<string>, path: seq<string>, i: nat, j: nat)
    requires TopOrder(e, order) && Closed(e) && Path(e, path) && i < j < |path|
    ensures path[i] in order && path[j] in order && Position(order, path[i]) < Position(order, path[j])
    decreases j
  {
    assert Edge(e, path[j - 1], path[j]);
    assert path[j] in e && path[j - 1] in e;
    assert path[j] in (set x <- order) && path[j - 1] in (set x <- order);
    if i < j - 1 {
      PathClimbs(e, order, path, i, j - 1);
    }
  }

  /** A graph with a topological order has no cycle. */
  lemma OrderedHasNoCycle(e: Entries, order: seq<string>, path: seq<string>)
    requires TopOrder(e, order) && Closed(e)
    ensures !Cycle(e, path)
  {
    if Cycle(e, path) {
      PathClimbs(e, order, path, 0, |path| - 1);
    }
  }

  // ----- levels -----

  /** One more than the highest level among `parents`; zero when there are none. */
  function Above(parents: seq<string>, level: map<string, nat>): nat {
    if parents == [] then 0 else
    var n := |parents| - 1;
    var below := Above(parents[..n], level);
    if parents[n] in level && level[parents[n]] + 1 > below then level[parents[n]] + 1 else below
  }

  lemma {:induction false} AboveAll(parents: seq<string>, level: map<string, nat>)
    ensures forall q <- parents | q in level :: level[q] < Above(parents, level)
    ensures Above(parents, level) > 0 ==> exists q <- parents :: q in level && level[q] + 1 == Above(parents, level)
  {
    if parents != [] {
      var n := |parents| - 1;
      AboveAll(parents[..n], level);
      assert parents == parents[..n] + [parents[n]];
    }
  }

  lemma {:induction false} AboveDepends(parents: seq<string>, a: map<string, nat>, b: map<string, nat>)
    requires forall q <- parents :: (q in a <==> q in b) && (q in a ==> a[q] == b[q])
    ensures Above(parents, a) == Above(parents, b)
  {
    if parents != [] {
      assert parents == parents[..|parents| - 1] + [parents[|parents| - 1]];
      AboveDepends(parents[..|parents| - 1], a, b);
    }
  }

  predicate Levelled(e: Entries, level: map<string, nat>) {
    level.Keys == e.Keys && forall x <- e :: level[x] == Above(e[x].parents, level)
  }

  predicate EndsMatch(e: Entries) {
    forall x <- e, y <- e :: x in e[y].parents <==> y in e[x].children
  }

  /** No path into a node is longer than its level. */
  lemma {:induction false} LevelBoundsPaths(e: Entries, level: map<string, nat>, path: seq<string>)
    requires Levelled(e, level) && Closed(e) && EndsMatch(e) && Path(e, path)
    ensures path[|path| - 1] in e && |path| - 1 <= level[path[|path| - 1]]
  {
    if |path| > 1 {
      var n := |path| - 1;
      assert Edge(e, path[n - 1], path[n]);
      forall i | 0 <= i < n - 1 ensures Edge(e, path[..n][i], path[..n][i + 1]) {
        assert Edge(e, path[i], path[i + 1]);
      }
      LevelBoundsPaths(e, level, path[..n]);
      AboveAll(e[path[n]].parents, level);
    }
  }

  /** Some path into a node is as long as its level. */
  lemma {:induction false} LevelHasPath(e: Entries, level: map<string, nat>, x: string) returns (path: seq<string>)
    requires Levelled(e, level) && Closed(e) && EndsMatch(e) && x in e
    ensures Path(e, path) && path[|path| - 1] == x && |path| - 1 == level[x]
    decreases level[x]
  {
    if level[x] == 0 {
      path := [x];
    } else {
      AboveAll(e[x].parents, level);
      var q :| q in e[x].parents && q in level && level[q] + 1 == level[x];
      path := LevelHasPath(e, level, q);
      PathMore(e, path, x);
      path := path + [x];
    }
  }

  /** Every level below an occupied one is occupied. */
  lemma {:induction false} NoEmptyLevel(e: Entries, level: map<string, nat>, x: string, k: nat) returns (y: string)
    requires Levelled(e, level) && x in e && k <= level[x]
    ensures y in e && level[y] == k
    decreases level[x]
  {
    if k == level[x] {
      y := x;
    } else {
      AboveAll(e[x].parents, level);
      var q :| q in e[x].parents && q in level && level[q] + 1 == level[x];
      y := NoEmptyLevel(e, level, q, k);
    }
  }

  // ----- the nodes of an order -----

  function NodesOf(e: Entries, order: seq<string>): (nodes: seq<Node>)
    requires forall x <- order :: x in e
    ensures |nodes| == |order| && forall i | 0 <= i < |order| :: nodes[i] == e[order[i]].node
  {
    seq(|order|, i requires 0 <= i < |order| => e[order[i]].node)
  }

  /** For a well-formed program a topological order of names runs the nodes in dependency order. */
  lemma TopOrderRuns(e: Entries, order: seq<string>)
    requires EdgesRight(e) && Named(e) && TopOrder(e, order) && forall x <- order :: x in e
    requires forall x <- e :: Proper(e[x].node)
    ensures Ordered(NodesOf(e, order))
  {
    var nodes := NodesOf(e, order);
    forall i, j | 0 <= i <= j < |nodes| ensures nodes[j].Out() !in nodes[i].inputs {
      if i < j {
        ChildReads(e, order[j], order[i]);
        assert !Edge(e, order[j], order[i]);
        assert nodes[j].Out() in nodes[j].outputs;
      }
    }
  }

  /** Ranked nodes have no cycle. */
  lemma {:induction false} RankedPath(e: Entries, rank: map<string, nat>, path: seq<string>, i: nat, j: nat)
    requires EdgesRight(e) && Named(e) && (forall x <- e :: x in rank && |e[x].node.outputs| == 1)
    requires forall x <- e, y <- e | x != y && e[x].node.Out() in e[y].node.inputs :: rank[x] < rank[y]
    requires Path(e, path) && i < j < |path|
    ensures path[i] in e && path[j] in e && rank[path[i]] < rank[path[j]]
    decreases j
  {
    assert Edge(e, path[j - 1], path[j]);
    ChildReads(e, path[j - 1], path[j]);
    if i < j - 1 {
      RankedPath(e, rank, path, i, j - 1);
    }
  }
}
