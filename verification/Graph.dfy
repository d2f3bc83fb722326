/** The computation graph: nodes, edges kept up to date as nodes come and go, orders and levels. */
module Graphs {
  import opened Base
  import opened Programs
  import opened Edges
  import opened Paths

  /** The nodes other than the one called `name`. */
  function Without(order: seq<string>, name: string): (r: seq<string>)
    ensures forall x :: x in r <==> x in order && x != name
  {
    if order == [] then [] else
    var n := |order| - 1;
    assert order == order[..n] + [order[n]];
    Without(order[..n], name) + if order[n] == name then [] else [order[n]]
  }

  lemma {:induction false} WithoutNoRepeats(order: seq<string>, name: string)
    requires NoRepeats(order)
    ensures NoRepeats(Without(order, name))
  {
    if order != [] {
      var n := |order| - 1;
      WithoutNoRepeats(order[..n], name);
      var before := Without(order[..n], name);
      forall i | 0 <= i < |before| ensures before[i] != order[n] {
        assert before[i] in order[..n];
      }
    }
  }

  lemma {:induction false} WithoutAbsent(order: seq<string>, name: string)
    requires name !in order
    ensures Without(order, name) == order
  {
    if order != [] {
      assert order == order[..|order| - 1] + [order[|order| - 1]];
      WithoutAbsent(order[..|order| - 1], name);
    }
  }

  lemma {:induction false} WithoutIsRemoveAt(order: seq<string>, i: nat)
    requires i < |order| && NoRepeats(order)
    ensures Without(order, order[i]) == RemoveAt(order, i)
  {
    var n := |order| - 1;
    if i == n {
      WithoutAbsent(order[..n], order[n]);
    } else {
      WithoutIsRemoveAt(order[..n], i);
    }
  }

  class Graph {
    var entries: Entries
    var order: seq<string>
    var inputs: seq<string>
    var outputs: seq<string>

    constructor ()
      ensures Valid() && EdgesRight(entries)
      ensures Nodes() == [] && inputs == [] && outputs == []
    {
      entries, order, inputs, outputs := map[], [], [], [];
    }

    ghost predicate Valid()
      reads this
    {
      NoRepeats(order) && (forall x :: x in order <==> x in entries) && Named(entries)
    }

    ghost function Nodes(): seq<Node>
      requires Valid()
      reads this
    {
      NodesOf(entries, order)
    }

    method SetInputs(names: seq<string>)
      modifies `inputs
      ensures inputs == names
    {
      inputs := names;
    }

    method SetOutputs(names: seq<string>)
      modifies `outputs
      ensures outputs == names
    {
      outputs := names;
    }

    // ----- edges -----

    /** Records an edge from `u` to `v` for every output of `u` that `v` reads. */
    method LinkPair(u: string, v: string, ghost pairs: set<(string, string)>)
      requires u in entries && v in entries && u != v && (u, v) !in pairs
      requires Named(entries) && LinkedFor(entries, pairs)
      modifies `entries
      ensures SameNodes(old(entries), entries) && Named(entries) && LinkedFor(entries, pairs + {(u, v)})
    {
      hide LinkedFor, Linked, SameNodes, Matches;
      ghost var before := entries;
      var outs, ins := entries[u].node.outputs, entries[v].node.inputs;
      LinkedNone(before, u, v);
      NoMatches(ins);
      for i := 0 to |outs|
        invariant entries == Linked(before, u, v, Matches(outs[..i], ins)) && u in entries && v in entries
      {
        MoreMatches(outs, ins, i);
        LinkedKeys(before, u, v, Matches(outs[..i + 1], ins));
        if outs[i] in ins {
          LinkedOneMore(before, u, v, Matches(outs[..i], ins));
          entries := entries[u := entries[u].(children := entries[u].children + [v])];
          entries := entries[v := entries[v].(parents := entries[v].parents + [u])];
        }
      }
      assert outs[..|outs|] == outs;
      LinkedKeys(before, u, v, Matches(outs, ins));
      LinkPairRight(before, pairs, u, v);
    }

    /** Records every edge into and out of a node that has none recorded yet. */
    method UpdateEdges(self: string)
      requires self in entries && Named(entries) && LinkedFor(entries, PairsBut(entries.Keys, self, entries.Keys))
      modifies `entries
      ensures SameNodes(old(entries), entries) && Named(entries) && EdgesRight(entries)
    {
      hide LinkedFor, PairsBut, Named, EdgesRight;
      ghost var before := entries;
      var left := entries.Keys;
      while left != {}
        invariant left <= before.Keys && SameNodes(before, entries) && Named(entries)
        invariant LinkedFor(entries, PairsBut(before.Keys, self, left))
      {
        var other: string :| other in left;
        ghost var pairs := PairsBut(before.Keys, self, left);
        PairsButLess(before.Keys, self, left, other);
        if other == self {
          SelfPairRight(entries, pairs, self);
          assert pairs + {(self, self)} + {(self, self)} == pairs + {(self, self)};
        } else {
          LinkPair(other, self, pairs);
          LinkPair(self, other, pairs + {(other, self)});
        }
        left := left - {other};
      }
      AllPairs(before.Keys, self);
      LinkedForAll(entries, PairsBut(before.Keys, self, {}));
    }

    /** Records every edge out of a node. */
    method LinkOutgoing(u: string, ghost pairs: set<(string, string)>)
      requires u in entries && Named(entries) && LinkedFor(entries, pairs) && forall y: string :: (u, y) !in pairs
      modifies `entries
      ensures SameNodes(old(entries), entries) && Named(entries)
      ensures LinkedFor(entries, pairs + From(u, old(entries).Keys))
    {
      hide LinkedFor, Named;
      ghost var before := entries;
      ghost var seen: set<string> := {};
      var left := entries.Keys;
      assert pairs + From(u, {}) == pairs;
      while left != {}
        invariant left !! seen && left + seen == before.Keys && SameNodes(before, entries) && Named(entries)
        invariant LinkedFor(entries, pairs + From(u, seen))
      {
        var other: string :| other in left;
        assert (u, other) !in pairs + From(u, seen);
        assert pairs + From(u, seen + {other}) == pairs + From(u, seen) + {(u, other)};
        if other == u {
          SelfPairRight(entries, pairs + From(u, seen), u);
        } else {
          LinkPair(u, other, pairs + From(u, seen));
        }
        left, seen := left - {other}, seen + {other};
      }
    }

    method RebuildEdges()
      requires Valid()
      modifies `entries
      ensures Valid() && Nodes() == old(Nodes()) && SameNodes(old(entries), entries) && EdgesRight(entries)
    {
      hide LinkedFor, EdgesRight, NoRepeats;
      ghost var before := entries;
      entries := Cleared(entries);
      ClearedLinks(before);
      ghost var keys := before.Keys;
      assert Between([], keys) == {};
      for i := 0 to |order|
        invariant SameNodes(before, entries) && Named(entries) && LinkedFor(entries, Between(order[..i], keys))
      {
        assert order[i] in order;
        NotYet(order, i);
        BetweenMore(order, i, keys);
        LinkOutgoing(order[i], Between(order[..i], keys));
      }
      assert order[..|order|] == order;
      LinkedForAll(entries, Between(order, keys));
    }

    /** Adds a node whose name is not taken, with its edges. */
    method AddNode(node: Node)
      requires Valid() && EdgesRight(entries) && node.name !in entries
      modifies `entries, `order
      ensures Valid() && EdgesRight(entries)
      ensures Nodes() == old(Nodes()) + [node] && order == old(order) + [node.name]
    {
      hide LinkedFor, EdgesRight, PairsBut;
      ghost var before := entries;
      entries := entries[node.name := Entry(node, [], [])];
      NewEntryLinks(before, node);
      UpdateEdges(node.name);
      order := order + [node.name];
    }

    /** Removes a node, if there is one, and rebuilds every edge. */
    method RemoveNode(name: string)
      requires Valid()
      modifies `entries, `order
      ensures Valid() && order == Without(old(order), name)
      ensures name in old(entries) ==> EdgesRight(entries)
      ensures name !in old(entries) ==> entries == old(entries)
      ensures entries.Keys == old(entries).Keys - {name}
      ensures forall x <- entries :: entries[x].node == old(entries)[x].node
    {
      if name !in entries {
        WithoutAbsent(order, name);
        return;
      }
      WithoutNoRepeats(order, name);
      entries := entries - {name};
      order := Without(order, name);
      RebuildEdges();
    }

    /** Changes a node's operator and outputs in place; the edges are not touched. */
    method Rewrite(name: string, opText: string, outs: seq<string>)
      requires Valid() && name in entries
      modifies `entries
      ensures Valid()
      ensures var e := old(entries);
              entries == e[name := e[name].(node := e[name].node.(opText := opText, outputs := outs))]
    {
      entries := entries[name := entries[name].(node := entries[name].node.(opText := opText, outputs := outs))];
    }

    // ----- order -----

    /**
     * Depth-first visit. `trail` is the path of nodes on the stack; the nodes of `done` are settled.
     * A node met again while it is on the stack closes a cycle.
     */
    method Visit(n: string, visited: set<string>, onStack: set<string>, done: seq<string>, ghost trail: seq<string>)
      returns (ok: bool, seen: set<string>, out: seq<string>, ghost cycle: seq<string>)
      requires Closed(entries) && n in entries && onStack <= entries.Keys && visited !! onStack
      requires Settled(entries, done) && (set x <- done) == visited
      requires (set x <- trail) == onStack &&
               (trail == [] || (Path(entries, trail) && Edge(entries, trail[|trail| - 1], n)))
      ensures ok ==> Settled(entries, out) && (set x <- out) == seen && n in seen && visited <= seen && seen !! onStack
      ensures !ok ==> Cycle(entries, cycle)
      decreases entries.Keys - onStack
    {
      cycle := [];
      if n in visited {
        return true, visited, done, cycle;
      }
      if n in onStack {
        ghost var k :| 0 <= k < |trail| && trail[k] == n;
        return false, visited, done, trail[k..] + [n];
      }
      PathMore(entries, trail, n);
      ghost var longer := trail + [n];
      assert (set x <- longer) == onStack + {n};
      seen, out := visited, done;
      var children := entries[n].children;
      for i := 0 to |children|
        invariant Settled(entries, out) && (set x <- out) == seen && visited <= seen && seen !! onStack + {n}
        invariant forall j | 0 <= j < i :: children[j] in seen
      {
        assert Edge(entries, n, children[i]);
        ok, seen, out, cycle := Visit(children[i], seen, onStack + {n}, out, longer);
        if !ok {
          return;
        }
      }
      SettledMore(entries, out, n);
      assert forall x :: x in out + [n] <==> x in out || x == n;
      return true, seen + {n}, out + [n], cycle;
    }

    /** Orders the nodes with every producer before its consumers; fails exactly when there is a cycle. */
    method TopologicalSort() returns (sorted: Result<seq<string>>, ghost cycle: seq<string>)
      requires Valid() && Closed(entries)
      ensures sorted.Ok? ==> TopOrder(entries, sorted.value) && forall p :: !Cycle(entries, p)
      ensures sorted.Err? ==> Cycle(entries, cycle)
    {
      var visited: set<string>, done: seq<string> := {}, [];
      for i := 0 to |order|
        invariant Settled(entries, done) && (set x <- done) == visited
        invariant forall j | 0 <= j < i :: order[j] in visited
      {
        assert order[i] in entries;
        if order[i] !in visited {
          var ok;
          ok, visited, done, cycle := Visit(order[i], visited, {}, done, []);
          if !ok {
            return Err("Graph contains a cycle"), cycle;
          }
        }
      }
      assert visited == entries.Keys by {
        forall x | x in entries ensures x in visited {
          var j :| 0 <= j < |order| && order[j] == x;
        }
      }
      ReversedSettled(entries, done);
      forall p ensures !Cycle(entries, p) {
        OrderedHasNoCycle(entries, Reversed(done), p);
      }
      return Ok(Reversed(done)), [];
    }

    // ----- levels -----

    /** One more than the highest level of a node's parents. */
    method LevelOf(n: string, level: map<string, nat>) returns (current: nat)
      requires n in entries
      ensures current == Above(entries[n].parents, level)
    {
      current := 0;
      var parents := entries[n].parents;
      for i := 0 to |parents|
        invariant current == Above(parents[..i], level)
      {
        assert parents[..i + 1][..i] == parents[..i];
        if parents[i] in level && level[parents[i]] + 1 > current {
          current := level[parents[i]] + 1;
        }
      }
      assert parents[..|parents|] == parents;
    }

    /** Every node's level, and the highest of them. */
    method LevelMap(sorted: seq<string>) returns (level: map<string, nat>, maxLevel: nat)
      requires forall x <- sorted :: x in entries
      ensures level == LevelsUpTo(entries, sorted, |sorted|) && maxLevel == MaxUpTo(entries, sorted, |sorted|)
    {
      level, maxLevel := map[], 0;
      for i := 0 to |sorted|
        invariant level == LevelsUpTo(entries, sorted, i) && maxLevel == MaxUpTo(entries, sorted, i)
      {
        var current := LevelOf(sorted[i], level);
        level := level[sorted[i] := current];
        if current > maxLevel {
          maxLevel := current;
        }
      }
    }

    /** Sorts the nodes into their levels. */
    method Group(sorted: seq<string>, level: map<string, nat>, count: nat) returns (levels: seq<seq<string>>)
      requires forall x <- sorted :: x in level && level[x] < count
      ensures levels == seq(count, k requires 0 <= k < count => AtLevel(sorted, level, k))
    {
      levels := seq(count, _ => []);
      for i := 0 to |sorted|
        invariant |levels| == count && forall k | 0 <= k < count :: levels[k] == AtLevel(sorted[..i], level, k)
      {
        var k := level[sorted[i]];
        assert sorted[..i + 1][..i] == sorted[..i];
        levels := levels[k := levels[k] + [sorted[i]]];
      }
      assert sorted[..|sorted|] == sorted;
    }

    method LevelsFrom(sorted: seq<string>) returns (levels: seq<seq<string>>, ghost level: map<string, nat>)
      requires EdgesRight(entries) && TopOrder(entries, sorted) && forall x <- sorted :: x in entries
      ensures Levelled(entries, level) && InLevels(sorted, level, levels)
    {
      hide LevelsUpTo, MaxUpTo, Levelled, AtLevel, EdgesRight, TopOrder;
      var l, maxLevel := LevelMap(sorted);
      level := l;
      LevelsAreLevels(entries, sorted);
      MaxIsMax(entries, sorted, |sorted|);
      assert sorted[..|sorted|] == sorted;
      LevelsOccupied(entries, sorted, l, maxLevel);
      levels := Group(sorted, l, if sorted == [] then 0 else maxLevel + 1);
    }

    /**
     * The wavefront: level `k` holds, in topological order, the nodes whose longest path from a source has `k`
     * edges.
     */
    method ExecutionLevels()
        returns (levels: Result<seq<seq<string>>>, ghost sorted: seq<string>, ghost level: map<string, nat>)
      requires Valid() && EdgesRight(entries)
      ensures levels.Err? <==> exists p :: Cycle(entries, p)
      ensures levels.Ok? ==>
                TopOrder(entries, sorted) && Levelled(entries, level) && InLevels(sorted, level, levels.value)
    {
      hide Levelled, InLevels, Cycle;
      var s, cycle := TopologicalSort();
      if s.Err? {
        return Err(s.message), [], map[];
      }
      assert forall x <- s.value :: x in (set y <- s.value);
      var grouped;
      sorted := s.value;
      grouped, level := LevelsFrom(s.value);
      levels := Ok(grouped);
    }
  }

  /** The levels of the first `i` nodes of an order. */
  function LevelsUpTo(e: Entries, sorted: seq<string>, i: nat): (level: map<string, nat>)
    requires i <= |sorted| && forall x <- sorted :: x in e
    ensures level.Keys == set x <- sorted[..i]
  {
    if i == 0 then map[] else
    var before := LevelsUpTo(e, sorted, i - 1);
    assert sorted[..i] == sorted[..i - 1] + [sorted[i - 1]];
    before[sorted[i - 1] := Above(e[sorted[i - 1]].parents, before)]
  }

  function MaxUpTo(e: Entries, sorted: seq<string>, i: nat): nat
    requires i <= |sorted| && forall x <- sorted :: x in e
  {
    if i == 0 then 0 else
    var current := Above(e[sorted[i - 1]].parents, LevelsUpTo(e, sorted, i - 1));
    var before := MaxUpTo(e, sorted, i - 1);
    if current > before then current else before
  }

  lemma LevelsStep(e: Entries, sorted: seq<string>, i: nat)
    requires 0 < i <= |sorted| && forall x <- sorted :: x in e
    ensures var before := LevelsUpTo(e, sorted, i - 1);
            LevelsUpTo(e, sorted, i) == before[sorted[i - 1] := Above(e[sorted[i - 1]].parents, before)]
  {
  }

  lemma {:induction false} LevelsRight(e: Entries, sorted: seq<string>, i: nat)
    requires EdgesRight(e) && TopOrder(e, sorted) && i <= |sorted| && forall x <- sorted :: x in e
    ensures forall j | 0 <= j < i ::
              sorted[j] in LevelsUpTo(e, sorted, i)
              && LevelsUpTo(e, sorted, i)[sorted[j]] == Above(e[sorted[j]].parents, LevelsUpTo(e, sorted, i))
  {
    hide LevelsUpTo, Above, TopOrder, EdgesRight, EndsMatch;
    if i > 0 {
      LevelsRight(e, sorted, i - 1);
      EndsMatchRight(e);
      EdgesClosed(e);
      var before := LevelsUpTo(e, sorted, i - 1);
      LaterLevels(e, sorted, i - 1, before, Above(e[sorted[i - 1]].parents, before));
      NotYetIn(e, sorted, i - 1);
      LevelsStep(e, sorted, i);
    }
  }

  lemma EdgesClosed(e: Entries)
    requires EdgesRight(e)
    ensures Closed(e)
  {
  }

  lemma NotYetIn(e: Entries, sorted: seq<string>, i: nat)
    requires TopOrder(e, sorted) && i < |sorted|
    ensures forall j | 0 <= j < i :: sorted[j] != sorted[i]
  {
  }

  lemma LevelsAreLevels(e: Entries, sorted: seq<string>)
    requires EdgesRight(e) && TopOrder(e, sorted) && forall x <- sorted :: x in e
    ensures Levelled(e, LevelsUpTo(e, sorted, |sorted|))
  {
    LevelsRight(e, sorted, |sorted|);
    assert sorted[..|sorted|] == sorted;
    forall x | x in e ensures x in sorted {
      assert x in (set y <- sorted);
    }
  }

  lemma {:induction false} MaxIsMax(e: Entries, sorted: seq<string>, i: nat)
    requires EdgesRight(e) && TopOrder(e, sorted) && i <= |sorted| && forall x <- sorted :: x in e
    ensures forall x <- LevelsUpTo(e, sorted, i) :: LevelsUpTo(e, sorted, i)[x] <= MaxUpTo(e, sorted, i)
    ensures i > 0 ==> exists x <- LevelsUpTo(e, sorted, i) :: LevelsUpTo(e, sorted, i)[x] == MaxUpTo(e, sorted, i)
  {
    hide LevelsUpTo, Above, TopOrder, EdgesRight;
    if i > 0 {
      MaxIsMax(e, sorted, i - 1);
      NotYetIn(e, sorted, i - 1);
      LevelsStep(e, sorted, i);
      var before, level := LevelsUpTo(e, sorted, i - 1), LevelsUpTo(e, sorted, i);
      assert sorted[i - 1] !in before;
      assert sorted[i - 1] in level;
      if MaxUpTo(e, sorted, i) == MaxUpTo(e, sorted, i - 1) && i > 1 {
        var x :| x in before && before[x] == MaxUpTo(e, sorted, i - 1);
        assert x in level && level[x] == before[x];
      }
    }
  }

  /** Level `k` of `levels` is exactly what the order has at `k`, and none is empty. */
  predicate InLevels(sorted: seq<string>, level: map<string, nat>, levels: seq<seq<string>>) {
    && (forall k | 0 <= k < |levels| :: levels[k] == AtLevel(sorted, level, k) && levels[k] != [])
    && forall x <- level :: level[x] < |levels|
  }

  lemma LevelsOccupied(e: Entries, sorted: seq<string>, level: map<string, nat>, maxLevel: nat)
    requires Levelled(e, level) && TopOrder(e, sorted)
    requires forall x <- level :: level[x] <= maxLevel
    requires sorted != [] ==> exists x <- level :: level[x] == maxLevel
    ensures sorted == [] ==> level == map[]
    ensures sorted != [] ==> forall k | 0 <= k <= maxLevel :: AtLevel(sorted, level, k) != []
  {
    if sorted != [] {
      forall k | 0 <= k <= maxLevel ensures AtLevel(sorted, level, k) != [] {
        OccupiedLevel(e, sorted, level, maxLevel, k);
      }
    } else {
      assert level.Keys == (set x <- sorted);
    }
  }

  /** The nodes of an order at one level. */
  function AtLevel(order: seq<string>, level: map<string, nat>, k: nat): (r: seq<string>)
    ensures forall x :: x in r <==> x in order && x in level && level[x] == k
  {
    if order == [] then [] else
    var n := |order| - 1;
    assert order == order[..n] + [order[n]];
    AtLevel(order[..n], level, k) + if order[n] in level && level[order[n]] == k then [order[n]] else []
  }

  lemma OccupiedLevel(e: Entries, order: seq<string>, level: map<string, nat>, maxLevel: nat, k: nat)
    requires Levelled(e, level) && TopOrder(e, order) && k <= maxLevel && exists x <- level :: level[x] == maxLevel
    ensures AtLevel(order, level, k) != []
  {
    var x :| x in level && level[x] == maxLevel;
    var y := NoEmptyLevel(e, level, x, k);
    assert y in (set x <- order);
    assert y in AtLevel(order, level, k);
  }

  lemma EndsMatchRight(e: Entries)
    requires EdgesRight(e)
    ensures EndsMatch(e)
  {
    forall x, y | x in e && y in e ensures x in e[y].parents <==> y in e[x].children {
      assert PairRight(e, x, y, Links(e[x].node, e[y].node));
      assert x in e[y].parents <==> multiset(e[y].parents)[x] > 0;
      assert y in e[x].children <==> multiset(e[x].children)[y] > 0;
    }
  }

  /** Giving the next node of a topological order its level changes no earlier node's. */
  lemma LaterLevels(e: Entries, sorted: seq<string>, i: nat, before: map<string, nat>, current: nat)
    requires Closed(e) && EndsMatch(e) && TopOrder(e, sorted) && i < |sorted|
    requires before.Keys == (set x <- sorted[..i]) && sorted[i] in e && current == Above(e[sorted[i]].parents, before)
    ensures var after := before[sorted[i] := current];
            forall j | 0 <= j <= i ::
              sorted[j] in e && Above(e[sorted[j]].parents, after) == Above(e[sorted[j]].parents, before)
  {
    var after := before[sorted[i] := current];
    forall j | 0 <= j <= i
      ensures sorted[j] in e && Above(e[sorted[j]].parents, after) == Above(e[sorted[j]].parents, before)
    {
      assert sorted[j] in (set x <- sorted);
      assert !Edge(e, sorted[i], sorted[j]);
      AboveDepends(e[sorted[j]].parents, before, after);
    }
  }

  predicate SameNodes(a: Entries, b: Entries) {
    a.Keys == b.Keys && forall x <- a :: a[x].node == b[x].node
  }

  lemma LinkedKeys(e: Entries, u: string, v: string, k: nat)
    requires u in e && v in e && u != v
    ensures SameNodes(e, Linked(e, u, v, k)) && u in Linked(e, u, v, k) && v in Linked(e, u, v, k)
  {
  }

  lemma NoMatches(ins: seq<string>)
    ensures Matches([], ins) == 0
  {
  }

  lemma MoreMatches(outs: seq<string>, ins: seq<string>, i: nat)
    requires i < |outs|
    ensures Matches(outs[..i + 1], ins) == Matches(outs[..i], ins) + if outs[i] in ins then 1 else 0
  {
    assert outs[..i + 1][..i] == outs[..i];
  }

  /** The pairs of `keys` other than those of `self` with a node of `left`. */
  function PairsBut(keys: set<string>, self: string, left: set<string>): set<(string, string)> {
    set x <- keys, y <- keys | !(x == self && y in left) && !(y == self && x in left) :: (x, y)
  }

  lemma PairsButLess(keys: set<string>, self: string, left: set<string>, other: string)
    requires self in keys && other in left && left <= keys
    ensures PairsBut(keys, self, left - {other}) == PairsBut(keys, self, left) + {(other, self)} + {(self, other)}
    ensures (other, self) !in PairsBut(keys, self, left) && (self, other) !in PairsBut(keys, self, left)
  {
  }

  lemma AllPairs(keys: set<string>, self: string)
    ensures forall x <- keys, y <- keys :: (x, y) in PairsBut(keys, self, {})
  {
  }

  function From(u: string, ys: set<string>): set<(string, string)> {
    set y <- ys :: (u, y)
  }

  function Between(xs: seq<string>, ys: set<string>): set<(string, string)> {
    set x <- xs, y <- ys :: (x, y)
  }

  lemma NotYet(order: seq<string>, i: nat)
    requires NoRepeats(order) && i < |order|
    ensures order[i] !in order[..i]
  {
  }

  lemma BetweenMore(order: seq<string>, i: nat, ys: set<string>)
    requires i < |order| && order[i] !in order[..i]
    ensures Between(order[..i + 1], ys) == Between(order[..i], ys) + From(order[i], ys)
    ensures forall y: string :: (order[i], y) !in Between(order[..i], ys)
  {
    assert order[..i + 1] == order[..i] + [order[i]];
  }

  lemma NewEntryLinks(e: Entries, node: Node)
    requires EdgesRight(e) && node.name !in e
    ensures var f := e[node.name := Entry(node, [], [])]; LinkedFor(f, PairsBut(f.Keys, node.name, f.Keys))
  {
    var f := e[node.name := Entry(node, [], [])];
    var pairs := PairsBut(f.Keys, node.name, f.Keys);
    forall x, y | x in f && y in f
      ensures PairRight(f, x, y, if (x, y) in pairs then Links(f[x].node, f[y].node) else 0)
    {
      if x in e && y in e {
        assert PairRight(e, x, y, Links(e[x].node, e[y].node));
      } else if x in e {
        assert y !in e[x].children;
      } else if y in e {
        assert x !in e[y].parents;
      }
    }
  }
}
