/** Undirected reachability over an adjacency map, independent of any search that computes it. */
module Graphs {
  type Graph<V> = map<V, set<V>>

  ghost predicate Undirected<V(!new)>(g: Graph<V>) {
    forall a, b | a in g && b in g[a] :: b in g && a in g[b]
  }

  ghost predicate IsPath<V(!new)>(g: Graph<V>, p: seq<V>) {
    && p != []
    && (forall x | x in p :: x in g)
    && forall i | 0 <= i < |p| - 1 :: p[i + 1] in g[p[i]]
  }

  ghost predicate Connected<V(!new)>(g: Graph<V>, a: V, b: V) {
    exists p :: IsPath(g, p) && p[0] == a && p[|p| - 1] == b
  }

  ghost function Component<V(!new)>(g: Graph<V>, a: V): set<V> {
    set b | b in g && Connected(g, a, b)
  }

  lemma ConnectedReflexive<V(!new)>(g: Graph<V>, a: V)
    requires a in g
    ensures Connected(g, a, a)
  {
    assert IsPath(g, [a]);
  }

  lemma ConnectedExtend<V(!new)>(g: Graph<V>, a: V, b: V, c: V)
    requires Connected(g, a, b) && c in g && c in g[b]
    ensures Connected(g, a, c)
  {
    var p :| IsPath(g, p) && p[0] == a && p[|p| - 1] == b;
    assert IsPath(g, p + [c]);
    assert (p + [c])[|p + [c]| - 1] == c;
  }

  lemma {:induction false} ReversedPath<V(!new)>(g: Graph<V>, p: seq<V>) returns (q: seq<V>)
    requires Undirected(g) && IsPath(g, p)
    ensures IsPath(g, q) && q[0] == p[|p| - 1] && q[|q| - 1] == p[0]
  {
    if |p| == 1 {
      q := p;
    } else {
      assert IsPath(g, p[1..]);
      var tail := ReversedPath(g, p[1..]);
      assert p[1] in g[p[0]];
      q := tail + [p[0]];
    }
  }

  lemma ConnectedSymmetric<V(!new)>(g: Graph<V>, a: V, b: V)
    requires Undirected(g) && Connected(g, a, b)
    ensures Connected(g, b, a)
  {
    var p :| IsPath(g, p) && p[0] == a && p[|p| - 1] == b;
    var q := ReversedPath(g, p);
  }

  lemma ConnectedTransitive<V(!new)>(g: Graph<V>, a: V, b: V, c: V)
    requires Connected(g, a, b) && Connected(g, b, c)
    ensures Connected(g, a, c)
  {
    var p :| IsPath(g, p) && p[0] == a && p[|p| - 1] == b;
    var q :| IsPath(g, q) && q[0] == b && q[|q| - 1] == c;
    var r := p + q[1..];
    forall i | 0 <= i < |r| - 1 ensures r[i + 1] in g[r[i]] {
      if i >= |p| - 1 { assert r[i] == q[i - |p| + 1]; }
    }
    assert IsPath(g, r);
  }

  /** A set closed under adjacency holds everything reachable from any member. */
  lemma ClosedSetHoldsReachable<V(!new)>(g: Graph<V>, s: set<V>, a: V, b: V)
    requires forall x | x in s && x in g :: g[x] <= s
    requires a in s && Connected(g, a, b)
    ensures b in s
  {
    var p :| IsPath(g, p) && p[0] == a && p[|p| - 1] == b;
    var i := 0;
    while i < |p| - 1
      invariant 0 <= i <= |p| - 1 && p[i] in s
    {
      assert p[i + 1] in g[p[i]];
      i := i + 1;
    }
  }

  /** Connected nodes have one and the same component. */
  lemma ConnectedSameComponent<V(!new)>(g: Graph<V>, a: V, b: V)
    requires Undirected(g) && Connected(g, a, b)
    ensures Component(g, a) == Component(g, b)
  {
    ConnectedSymmetric(g, a, b);
    forall c | c in g ensures Connected(g, a, c) <==> Connected(g, b, c) {
      if Connected(g, a, c) { ConnectedTransitive(g, b, a, c); }
      if Connected(g, b, c) { ConnectedTransitive(g, a, b, c); }
    }
  }

  // ---- Directed dependencies: an acyclic finite relation has a sink ----

  ghost predicate IsCycle<V(!new)>(deps: Graph<V>, p: seq<V>) {
    && |p| >= 2 && p[0] == p[|p| - 1]
    && (forall x | x in p :: x in deps)
    && forall i | 0 <= i < |p| - 1 :: p[i + 1] in deps[p[i]]
  }

  ghost predicate AcyclicOn<V(!new)>(deps: Graph<V>, s: set<V>) {
    !exists p :: IsCycle(deps, p) && forall x | x in p :: x in s
  }

  ghost predicate IsSimpleWalk<V(!new)>(deps: Graph<V>, s: set<V>, p: seq<V>) {
    && p != []
    && (forall x | x in p :: x in s && x in deps)
    && (forall i | 0 <= i < |p| - 1 :: p[i + 1] in deps[p[i]])
    && (forall i, j | 0 <= i < j < |p| :: p[i] != p[j])
  }

  lemma {:induction false} DistinctFits<V(!new)>(p: seq<V>, s: set<V>)
    requires forall x | x in p :: x in s
    requires forall i, j | 0 <= i < j < |p| :: p[i] != p[j]
    ensures |p| <= |s|
  {
    if p != [] {
      forall x | x in p[1..] ensures x in s - {p[0]} {
        var k :| 0 <= k < |p[1..]| && p[1..][k] == x;
        assert p[k + 1] == x;
      }
      DistinctFits(p[1..], s - {p[0]});
    }
  }

  /** Following successors inside a finite set without sinks must revisit a node. */
  lemma {:induction false} WalkCloses<V(!new)>(deps: Graph<V>, s: set<V>, p: seq<V>) returns (cycle: seq<V>)
    requires forall x | x in s :: x in deps && deps[x] * s != {}
    requires IsSimpleWalk(deps, s, p)
    ensures IsCycle(deps, cycle) && forall x | x in cycle :: x in s
    decreases |s| - |p|
  {
    DistinctFits(p, s);
    var last := p[|p| - 1];
    assert last in p;
    var next :| next in deps[last] * s;
    if k :| 0 <= k < |p| && p[k] == next {
      cycle := p[k..] + [next];
    } else {
      DistinctFits(p + [next], s);
      cycle := WalkCloses(deps, s, p + [next]);
    }
  }

  lemma AcyclicHasSink<V(!new)>(deps: Graph<V>, s: set<V>) returns (sink: V)
    requires s != {} && s <= deps.Keys && AcyclicOn(deps, s)
    ensures sink in s && deps[sink] * s == {}
  {
    if x :| x in s && deps[x] * s == {} {
      sink := x;
    } else {
      var start :| start in s;
      assert IsSimpleWalk(deps, s, [start]);
      var cycle := WalkCloses(deps, s, [start]);
      assert false;
    }
  }
}
