/** The stack search that collects one connected component. */
module ComponentSearch {
  import opened Common
  import opened Graphs

  ghost predicate Distinct<V(!new)>(s: seq<V>) {
    forall i, j | 0 <= i < j < |s| :: s[i] != s[j]
  }

  function Elements<V(==, !new)>(s: seq<V>): set<V> {
    set x | x in s
  }

  lemma AppendElements<V(!new)>(s: seq<V>, t: seq<V>)
    ensures Elements(s + t) == Elements(s) + Elements(t)
  {
  }

  lemma DistinctAppend<V(!new)>(s: seq<V>, t: seq<V>)
    requires Distinct(s) && Distinct(t) && Elements(s) !! Elements(t)
    ensures Distinct(s + t)
  {
    forall i, j | 0 <= i < j < |s + t| ensures (s + t)[i] != (s + t)[j] {
      if i < |s| <= j {
        assert s[i] in Elements(s) && t[j - |s|] in Elements(t);
      }
    }
  }

  /** A union of whole components: nothing in it is adjacent to anything outside. */
  ghost predicate Closed<V(!new)>(g: Graph<V>, s: set<V>) {
    s <= g.Keys && forall x | x in s :: g[x] <= s
  }

  lemma ComponentIsClosed<V(!new)>(g: Graph<V>, start: V)
    requires Undirected(g) && start in g
    ensures Closed(g, Component(g, start)) && start in Component(g, start)
  {
    ConnectedReflexive(g, start);
    forall x, y | x in Component(g, start) && y in g[x] ensures y in Component(g, start) {
      ConnectedExtend(g, start, x, y);
    }
  }

  lemma ClosedIncludesComponent<V(!new)>(g: Graph<V>, start: V, s: set<V>)
    requires Closed(g, s) && start in s
    ensures Component(g, start) <= s
  {
    forall x | x in Component(g, start) ensures x in s {
      ClosedSetHoldsReachable(g, s, start, x);
    }
  }

  /** What the search keeps: the stack reaches no further than the component, and every neighbour
      of a found row is visited or still on the stack. */
  ghost predicate Searching<V(!new)>(g: Graph<V>, start: V, visited0: set<V>,
                                     component: seq<V>, visited: set<V>, stack: seq<V>)
  {
    var found := Elements(component);
    && Elements(stack) <= Component(g, start)
    && found <= Component(g, start) && found !! visited0
    && visited == visited0 + found
    && Distinct(component)
    && (start in stack || start in found)
    && Frontier(g, found, visited, stack)
  }

  ghost predicate Frontier<V>(g: Graph<V>, found: set<V>, visited: set<V>, stack: seq<V>) {
    found <= g.Keys && forall x, y | x in found && y in g[x] :: y in visited || y in stack
  }

  lemma SearchPops<V(!new)>(g: Graph<V>, start: V, visited0: set<V>,
                            component: seq<V>, visited: set<V>, rest: seq<V>, current: V)
    requires Searching(g, start, visited0, component, visited, rest + [current]) && current in visited
    requires start !in visited0
    ensures Searching(g, start, visited0, component, visited, rest)
  {
    AppendElements(rest, [current]);
  }

  lemma SearchVisits<V(!new)>(g: Graph<V>, start: V, visited0: set<V>,
                              component: seq<V>, visited: set<V>, rest: seq<V>, current: V, more: seq<V>)
    requires Closed(g, Component(g, start))
    requires Searching(g, start, visited0, component, visited, rest + [current]) && current !in visited
    requires current in g && Elements(more) == g[current] - (visited + {current})
    ensures Searching(g, start, visited0, component + [current], visited + {current}, rest + more)
  {
    AppendElements(rest, [current]);
    AppendElements(rest, more);
    AppendElements(component, [current]);
    DistinctAppend(component, [current]);
    assert current in Elements(rest + [current]);
    FrontierGrows(g, Elements(component), visited, rest, current, more);
  }

  lemma FrontierGrows<V(!new)>(g: Graph<V>, found: set<V>, visited: set<V>, rest: seq<V>, current: V, more: seq<V>)
    requires Frontier(g, found, visited, rest + [current])
    requires current in g && Elements(more) == g[current] - (visited + {current})
    ensures Frontier(g, found + {current}, visited + {current}, rest + more)
  {
    assert forall y :: y in more <==> y in Elements(more);
  }

  lemma SearchEnds<V(!new)>(g: Graph<V>, start: V, visited0: set<V>, component: seq<V>, visited: set<V>)
    requires Undirected(g) && start in g && start !in visited0 && Closed(g, visited0)
    requires Searching(g, start, visited0, component, visited, [])
    ensures Elements(component) == Component(g, start)
    ensures Closed(g, visited)
  {
    DisjointClosed(g, Elements(component), visited0);
    ClosedIncludesComponent(g, start, Elements(component));
  }

  /** The stack search from one unvisited row: unvisited rows shrink, or else the stack does. */
  method Explore<V(==, !new)>(g: Graph<V>, start: V, visited0: set<V>)
    returns (component: seq<V>, visited: set<V>)
    requires Undirected(g) && start in g && start !in visited0 && Closed(g, visited0)
    ensures Distinct(component)
    ensures Elements(component) == Component(g, start)
    ensures visited == visited0 + Component(g, start) && visited0 !! Component(g, start)
    ensures Closed(g, visited)
  {
    var stack := [start];
    component, visited := [], visited0;
    ComponentIsClosed(g, start);
    while stack != []
      invariant Searching(g, start, visited0, component, visited, stack)
      decreases g.Keys - visited, |stack|
    {
      var rest, current := stack[..|stack| - 1], stack[|stack| - 1];
      assert stack == rest + [current];
      stack := rest;
      if current in visited {
        SearchPops(g, start, visited0, component, visited, rest, current);
      } else {
        assert current in Elements(rest + [current]);
        var more := SetToSeq(g[current] - (visited + {current}));
        SearchVisits(g, start, visited0, component, visited, rest, current, more);
        visited := visited + {current};
        component := component + [current];
        stack := stack + more;
      }
    }
    SearchEnds(g, start, visited0, component, visited);
  }

  lemma DisjointClosed<V(!new)>(g: Graph<V>, found: set<V>, before: set<V>)
    requires Undirected(g) && found <= g.Keys && found !! before && Closed(g, before)
    requires forall x, y | x in found && y in g[x] :: y in before + found
    ensures Closed(g, found) && Closed(g, before + found)
  {
    forall x, y | x in found && y in g[x] ensures y in found {
      NeighboursOfClosed(g, before, x, y);
      assert y in before + found;
    }
  }

  lemma NeighboursOfClosed<V(!new)>(g: Graph<V>, s: set<V>, x: V, y: V)
    requires Undirected(g) && Closed(g, s) && x in g && y in g[x]
    ensures y in s ==> x in s
  {
    assert x in g[y];
  }
}
