/** Task-chain identity backfill: every task link of a project receives the identity of its dependency chain. */
module TaskChains {
  import opened Common
  import opened Graphs

  datatype Row = Row(id: string, project: string, repo: string, node: Option<string>, dependsOn: seq<string>)

  /** One executed UPDATE statement: `root` is written to every row named in `ids`. */
  datatype Update = Update(root: string, ids: seq<string>)

  /** `id` is the primary key of the table. */
  ghost predicate DistinctIds(rows: seq<Row>) {
    forall i, j | 0 <= i < j < |rows| :: rows[i].id != rows[j].id
  }

  ghost function Ids(rows: seq<Row>): set<string> {
    set row | row in rows :: row.id
  }

  function NodeKey(row: Row): string
    requires row.node.Some?
  {
    row.repo + "::" + row.node.value
  }

  /** The key joins repository and node with a double colon. Within a repository it tells the nodes apart; rows of two
      repositories share a key exactly when the longer name begins with the shorter one and the rests of the two keys
      are the same. */
  lemma SameNodeKey(a: Row, b: Row)
    requires a.node.Some? && b.node.Some? && |a.repo| <= |b.repo|
    ensures a.repo == b.repo ==> (NodeKey(a) == NodeKey(b) <==> a.node == b.node)
    ensures a.repo != b.repo ==> (NodeKey(a) == NodeKey(b) <==>
      a.repo < b.repo && "::" + a.node.value == b.repo[|a.repo|..] + "::" + b.node.value)
  {
    var x, y, m := NodeKey(a), NodeKey(b), |a.repo|;
    assert x[..m] == a.repo && x[m..] == "::" + a.node.value;
    assert y[..|b.repo|] == b.repo && y[|b.repo| + 2..] == b.node.value;
    assert x[m + 2..] == a.node.value;
    var rest := b.repo[m..];
    assert b.repo == b.repo[..m] + rest;
    assert y == b.repo[..m] + (rest + "::" + b.node.value);
    assert y[..m] == b.repo[..m] && y[m..] == rest + "::" + b.node.value;
    assert x == x[..m] + x[m..] && y == y[..m] + y[m..];
    assert a.repo < b.repo <==> a.repo != b.repo && a.repo == b.repo[..m];
  }

  /** The composite key index of a project; a later row with the same key replaces an earlier one. */
  function KeyIndex(rows: seq<Row>): (m: map<string, string>)
    ensures forall key | key in m :: m[key] in Ids(rows)
  {
    if rows == [] then map[]
    else
      var n := |rows| - 1;
      var m := KeyIndex(rows[..n]);
      assert rows == rows[..n] + [rows[n]];
      if rows[n].node.Some? then m[NodeKey(rows[n]) := rows[n].id] else m
  }

  /** The rows a row depends on, as far as its dependency keys resolve inside the project. */
  function Dependencies(index: map<string, string>, row: Row): set<string> {
    set key | key in row.dependsOn && key in index :: index[key]
  }

  ghost predicate DependsOn(rows: seq<Row>, a: string, b: string) {
    exists row :: row in rows && row.id == a && b in Dependencies(KeyIndex(rows), row)
  }

  /** Directed dependencies of the project's rows. */
  ghost function DependencyGraph(rows: seq<Row>): Graph<string> {
    map a | a in Ids(rows) :: set b | b in Ids(rows) && DependsOn(rows, a, b)
  }

  /** Dependencies taken undirected. */
  ghost function Links(rows: seq<Row>): Graph<string> {
    map a | a in Ids(rows) :: set b | b in Ids(rows) && (DependsOn(rows, a, b) || DependsOn(rows, b, a))
  }

  ghost function Chain(rows: seq<Row>, id: string): set<string> {
    Component(Links(rows), id)
  }

  /** Members of a chain that depend on nothing. */
  ghost function ChainRoots(rows: seq<Row>, chain: set<string>): set<string> {
    set a | a in chain && !exists b :: DependsOn(rows, a, b)
  }

  /** The identity of the chain that holds `id`: its least root, or its least member if it has none. */
  ghost predicate IsChainRoot(rows: seq<Row>, id: string, root: string) {
    var chain := Chain(rows, id);
    var roots := ChainRoots(rows, chain);
    IsLeast(root, if roots != {} then roots else chain)
  }

  // ---- Facts about the specification ----

  lemma DependencyIsRow(rows: seq<Row>, a: string, b: string)
    requires DependsOn(rows, a, b)
    ensures a in Ids(rows) && b in Ids(rows)
  {
    var row :| row in rows && row.id == a && b in Dependencies(KeyIndex(rows), row);
  }

  lemma ChainHasRoot(rows: seq<Row>, id: string) returns (root: string)
    requires id in Ids(rows)
    ensures IsChainRoot(rows, id, root)
  {
    ConnectedReflexive(Links(rows), id);
    var chain := Chain(rows, id);
    assert id in chain;
    var roots := ChainRoots(rows, chain);
    root := LeastExists(if roots != {} then roots else chain);
  }

  /** The identity exists and is unique, so it is a function of the row. */
  ghost function ChainRoot(rows: seq<Row>, id: string): (root: string)
    requires id in Ids(rows)
    ensures IsChainRoot(rows, id, root)
    ensures forall r | IsChainRoot(rows, id, r) :: r == root
  {
    assert exists r :: IsChainRoot(rows, id, r) by { var r := ChainHasRoot(rows, id); }
    var root :| IsChainRoot(rows, id, root);
    assert forall r | IsChainRoot(rows, id, r) :: r == root by {
      var chain := Chain(rows, id);
      var roots := ChainRoots(rows, chain);
      forall r | IsChainRoot(rows, id, r) ensures r == root {
        LeastIsUnique(r, root, if roots != {} then roots else chain);
      }
    }
    root
  }

  /** Two rows share an identity exactly when dependencies, taken undirected, connect them. */
  lemma SameIdentityIffConnected(rows: seq<Row>, a: string, b: string)
    requires a in Ids(rows) && b in Ids(rows)
    ensures ChainRoot(rows, a) == ChainRoot(rows, b) <==> Connected(Links(rows), a, b)
  {
    var g := Links(rows);
    assert Undirected(g);
    if Connected(g, a, b) {
      ConnectedSameComponent(g, a, b);
      assert IsChainRoot(rows, a, ChainRoot(rows, b));
    }
    var root := ChainRoot(rows, a);
    assert root in Chain(rows, a) && ChainRoot(rows, b) in Chain(rows, b);
    if root == ChainRoot(rows, b) {
      ConnectedSymmetric(g, b, root);
      ConnectedTransitive(g, a, root, b);
    }
  }

  /** The identity names a member of the chain, and that member carries its own id. */
  lemma RootIsItsOwnRoot(rows: seq<Row>, id: string)
    requires id in Ids(rows)
    ensures var root := ChainRoot(rows, id);
            && root in Chain(rows, id)
            && root in Ids(rows)
            && ChainRoot(rows, root) == root
  {
    SameIdentityIffConnected(rows, id, ChainRoot(rows, id));
  }

  /** Dependencies never leave the chain, so the membership test inside the root filter is always true. */
  lemma DependencyStaysInChain(rows: seq<Row>, id: string, a: string, b: string)
    requires a in Chain(rows, id) && DependsOn(rows, a, b)
    ensures b in DependencyGraph(rows)[a] * Chain(rows, id)
  {
    DependencyIsRow(rows, a, b);
    ConnectedExtend(Links(rows), id, a, b);
  }

  /** A chain without dependency cycles has a root: its identity depends on nothing and is the least such id. */
  lemma AcyclicChainRoot(rows: seq<Row>, id: string)
    requires id in Ids(rows)
    requires AcyclicOn(DependencyGraph(rows), Chain(rows, id))
    ensures var root := ChainRoot(rows, id);
            && IsLeast(root, ChainRoots(rows, Chain(rows, id)))
            && forall b :: !DependsOn(rows, root, b)
  {
    var chain := Chain(rows, id);
    ConnectedReflexive(Links(rows), id);
    assert id in chain;
    var sink := AcyclicHasSink(DependencyGraph(rows), chain);
    forall b ensures !DependsOn(rows, sink, b) {
      if DependsOn(rows, sink, b) { DependencyStaysInChain(rows, id, sink, b); }
    }
    assert sink in ChainRoots(rows, chain);
  }

  ghost predicate DependsOnNothing(rows: seq<Row>, a: string) {
    forall b :: !DependsOn(rows, a, b)
  }

  /** `root` is of the chain of `id`. A member whose id comes before it in dictionary order depends on some row, and
      then `root` does not; and `root` depends on some row only if every member does. */
  ghost predicate FirstOfChain(rows: seq<Row>, id: string, root: string) {
    var chain := Chain(rows, id);
    && root in chain
    && (forall a | a in chain && ComesBefore(a, root) :: !DependsOnNothing(rows, a) && DependsOnNothing(rows, root))
    && (forall a | a in chain && DependsOnNothing(rows, a) :: DependsOnNothing(rows, root))
  }

  /** The identity is the first root of the chain in dictionary order, or its first member if it has no root. */
  lemma IdentityIffFirst(rows: seq<Row>, id: string, root: string)
    requires id in Ids(rows)
    ensures FirstOfChain(rows, id, root) <==> root == ChainRoot(rows, id)
  {
    hide StringLeq, ComesBefore, DependsOn, Chain;
    forall a, b ensures StringLeq(a, b) <==> !ComesBefore(b, a) { LeqIffNotAfter(a, b); }
    var chain := Chain(rows, id);
    forall a ensures a in ChainRoots(rows, chain) <==> a in chain && DependsOnNothing(rows, a) {}
    if FirstOfChain(rows, id, root) { assert IsChainRoot(rows, id, root); }
  }

  // ---- Row order ----

  predicate Carries(row: Row, key: string) {
    row.node.Some? && NodeKey(row) == key
  }

  /** At most one row carries this composite key. */
  ghost predicate CarriedOnce(rows: seq<Row>, key: string) {
    forall i, j | 0 <= i < j < |rows| :: !(Carries(rows[i], key) && Carries(rows[j], key))
  }

  ghost predicate UniqueKeys(rows: seq<Row>) {
    forall key :: CarriedOnce(rows, key)
  }

  /** No key that some row names is carried by two rows. */
  ghost predicate NamedKeysUnique(rows: seq<Row>) {
    forall row, key | row in rows && key in row.dependsOn :: CarriedOnce(rows, key)
  }

  /** Assignments depend on the set of rows and on what their dependencies resolve to only. */
  lemma SameDependenciesSameIdentity(rows: seq<Row>, other: seq<Row>, id: string)
    requires id in Ids(rows) && multiset(rows) == multiset(other)
    requires forall row | row in rows :: Dependencies(KeyIndex(rows), row) == Dependencies(KeyIndex(other), row)
    ensures id in Ids(other) && ChainRoot(rows, id) == ChainRoot(other, id)
  {
    SameElements(rows, other);
    assert Ids(rows) == Ids(other);
    SameLinks(rows, other);
    assert IsChainRoot(other, id, ChainRoot(rows, id));
  }

  lemma SameLinks(rows: seq<Row>, other: seq<Row>)
    requires forall row :: row in rows <==> row in other
    requires forall row | row in rows :: Dependencies(KeyIndex(rows), row) == Dependencies(KeyIndex(other), row)
    ensures Links(rows) == Links(other)
    ensures forall chain :: ChainRoots(rows, chain) == ChainRoots(other, chain)
  {
    hide KeyIndex, Dependencies;
    assert Ids(rows) == Ids(other);
    assert forall a, b :: DependsOn(rows, a, b) <==> DependsOn(other, a, b);
    var g, h := Links(rows), Links(other);
    forall a | a in g ensures g[a] == h[a] {}
    assert g.Keys == h.Keys;
  }

  lemma SameElements<T>(a: seq<T>, b: seq<T>)
    requires multiset(a) == multiset(b)
    ensures forall x :: x in a <==> x in b
  {
    forall x ensures x in a <==> x in b {
      assert x in a <==> x in multiset(a);
      assert x in b <==> x in multiset(b);
    }
  }

  ghost predicate Maps(m: map<string, string>, key: string, id: string) {
    key in m && m[key] == id
  }

  lemma SameMaps(m: map<string, string>, n: map<string, string>)
    requires forall key, id :: Maps(m, key, id) <==> Maps(n, key, id)
    ensures m == n
  {
    forall key ensures key in m <==> key in n {
      if key in m { assert Maps(m, key, m[key]); }
      if key in n { assert Maps(n, key, n[key]); }
    }
    forall key | key in m ensures m[key] == n[key] {
      assert Maps(m, key, m[key]);
    }
  }

  lemma {:induction false} UniqueKeyIndex(rows: seq<Row>, key: string, id: string)
    requires CarriedOnce(rows, key)
    ensures Maps(KeyIndex(rows), key, id) <==> exists row :: row in rows && Carries(row, key) && row.id == id
  {
    if rows != [] {
      var n := |rows| - 1;
      assert rows == rows[..n] + [rows[n]];
      UniqueKeyIndex(rows[..n], key, id);
      if Carries(rows[n], key) {
        forall row | row in rows[..n] ensures !Carries(row, key) {}
        assert rows[n] in rows;
      }
    }
  }

  lemma LastRowDecides(rows: seq<Row>, i: nat) returns (moved: seq<Row>)
    requires i < |rows| && rows[i].node.Some?
    ensures multiset(moved) == multiset(rows)
    ensures Maps(KeyIndex(moved), NodeKey(rows[i]), rows[i].id)
  {
    var rest := rows[..i] + rows[i + 1..];
    moved := rest + [rows[i]];
    assert rows == rows[..i] + ([rows[i]] + rows[i + 1..]);
    assert moved[..|moved| - 1] == rest;
  }

  /** The key index survives every reordering of the rows exactly when no two rows share a composite key. */
  lemma IndexIgnoresOrderIffUniqueKeys(rows: seq<Row>)
    requires DistinctIds(rows)
    ensures (forall other: seq<Row> | multiset(other) == multiset(rows) :: KeyIndex(other) == KeyIndex(rows))
       <==> UniqueKeys(rows)
  {
    if UniqueKeys(rows) {
      forall other: seq<Row> | multiset(other) == multiset(rows) ensures KeyIndex(other) == KeyIndex(rows) {
        forall key, id ensures Maps(KeyIndex(rows), key, id) <==> Maps(KeyIndex(other), key, id) {
          SameEntry(rows, other, key, id);
        }
        SameMaps(KeyIndex(rows), KeyIndex(other));
      }
    } else {
      var key :| !CarriedOnce(rows, key);
      var i, j :| 0 <= i < j < |rows| && Carries(rows[i], key) && Carries(rows[j], key);
      var first := LastRowDecides(rows, i);
      var second := LastRowDecides(rows, j);
      assert KeyIndex(first) != KeyIndex(second);
    }
  }

  /** A key that one row carries resolves alike in every order. */
  lemma SameEntry(rows: seq<Row>, other: seq<Row>, key: string, id: string)
    requires DistinctIds(rows) && CarriedOnce(rows, key) && multiset(other) == multiset(rows)
    ensures Maps(KeyIndex(rows), key, id) <==> Maps(KeyIndex(other), key, id)
  {
    hide KeyIndex;
    CarriedOnceReordered(rows, other, key);
    SameElements(rows, other);
    UniqueKeyIndex(rows, key, id);
    UniqueKeyIndex(other, key, id);
  }

  lemma CarriedOnceReordered(rows: seq<Row>, other: seq<Row>, key: string)
    requires CarriedOnce(rows, key) && DistinctIds(rows) && multiset(other) == multiset(rows)
    ensures CarriedOnce(other, key)
  {
    forall i, j | 0 <= i < j < |other| ensures !(Carries(other[i], key) && Carries(other[j], key)) {
      assert other[i] in multiset(other) && other[j] in multiset(other);
      var k :| 0 <= k < |rows| && rows[k] == other[i];
      var l :| 0 <= l < |rows| && rows[l] == other[j];
      if k == l {
        TwoOccurrences(other, i, j);
        OneOccurrence(rows, k);
      } else if k < l {
        assert !(Carries(rows[k], key) && Carries(rows[l], key));
      } else {
        assert !(Carries(rows[l], key) && Carries(rows[k], key));
      }
    }
  }

  lemma TwoOccurrences<T>(s: seq<T>, i: nat, j: nat)
    requires i < j < |s| && s[i] == s[j]
    ensures multiset(s)[s[i]] >= 2
  {
    assert s == s[..i] + ([s[i]] + (s[i + 1..j] + ([s[j]] + s[j + 1..])));
  }

  lemma OneOccurrence(rows: seq<Row>, k: nat)
    requires DistinctIds(rows) && k < |rows|
    ensures multiset(rows)[rows[k]] == 1
  {
    assert rows == rows[..k] + ([rows[k]] + rows[k + 1..]);
    assert rows[k] !in rows[..k] && rows[k] !in rows[k + 1..];
  }

  lemma SameResolution(rows: seq<Row>, other: seq<Row>, row: Row)
    requires DistinctIds(rows) && multiset(other) == multiset(rows)
    requires forall key | key in row.dependsOn :: CarriedOnce(rows, key)
    ensures Dependencies(KeyIndex(rows), row) == Dependencies(KeyIndex(other), row)
  {
    hide KeyIndex;
    var m, n := KeyIndex(rows), KeyIndex(other);
    forall key | key in row.dependsOn ensures (key in m <==> key in n) && (key in m ==> m[key] == n[key]) {
      if key in m {
        assert Maps(m, key, m[key]);
        SameEntry(rows, other, key, m[key]);
      }
      if key in n {
        assert Maps(n, key, n[key]);
        SameEntry(rows, other, key, n[key]);
      }
    }
  }

  /** Hence the assignment does not depend on row order when no named key is carried by two rows. */
  lemma IdentityIgnoresOrder(rows: seq<Row>, other: seq<Row>, id: string)
    requires DistinctIds(rows) && NamedKeysUnique(rows)
    requires multiset(rows) == multiset(other) && id in Ids(rows)
    ensures id in Ids(other) && ChainRoot(rows, id) == ChainRoot(other, id)
  {
    hide KeyIndex, Dependencies;
    forall row | row in rows ensures Dependencies(KeyIndex(rows), row) == Dependencies(KeyIndex(other), row) {
      SameResolution(rows, other, row);
    }
    SameDependenciesSameIdentity(rows, other, id);
  }

  // ---- The exact condition over all dependency lists ----

  ghost predicate SameButDependencies(rows: seq<Row>, layout: seq<Row>) {
    |rows| == |layout| && forall k | 0 <= k < |rows| :: rows[k] == layout[k].(dependsOn := rows[k].dependsOn)
  }

  ghost predicate OrderIrrelevant(rows: seq<Row>) {
    forall other, id | multiset(other) == multiset(rows) && id in Ids(rows) && id in Ids(other) ::
      ChainRoot(rows, id) == ChainRoot(other, id)
  }

  /** Whatever the rows depend on, their identities survive every reordering, exactly when no two rows share a
      composite key. */
  lemma OrderIrrelevantIffUniqueKeys(layout: seq<Row>)
    requires DistinctIds(layout)
    ensures UniqueKeys(layout) <==> forall rows | SameButDependencies(rows, layout) :: OrderIrrelevant(rows)
  {
    if UniqueKeys(layout) {
      forall rows | SameButDependencies(rows, layout) ensures OrderIrrelevant(rows) {
        SameLayout(rows, layout);
        forall other, id | multiset(other) == multiset(rows) && id in Ids(rows) && id in Ids(other)
          ensures ChainRoot(rows, id) == ChainRoot(other, id)
        {
          IdentityIgnoresOrder(rows, other, id);
        }
      }
    } else {
      var key :| !CarriedOnce(layout, key);
      var i, j :| 0 <= i < j < |layout| && Carries(layout[i], key) && Carries(layout[j], key);
      var rows := SharedKeyFollowsOrder(layout, i, j, key);
    }
  }

  lemma SameLayout(rows: seq<Row>, layout: seq<Row>)
    requires SameButDependencies(rows, layout) && DistinctIds(layout)
    ensures DistinctIds(rows)
    ensures UniqueKeys(layout) ==> NamedKeysUnique(rows)
  {
    if UniqueKeys(layout) {
      forall key ensures CarriedOnce(rows, key) {
        assert CarriedOnce(layout, key);
        assert forall k | 0 <= k < |rows| :: Carries(rows[k], key) <==> Carries(layout[k], key);
      }
    }
  }

  /** Row `i` depends on the key it shares with row `j`: on itself when it comes last, on `j` when `j` does. */
  lemma SharedKeyFollowsOrder(layout: seq<Row>, i: nat, j: nat, key: string) returns (rows: seq<Row>)
    requires DistinctIds(layout) && i < j < |layout| && Carries(layout[i], key) && Carries(layout[j], key)
    ensures SameButDependencies(rows, layout) && !OrderIrrelevant(rows)
  {
    rows := NamingKey(layout, i, key);
    SameLayout(rows, layout);
    var first := LastRowDecides(rows, i);
    var second := LastRowDecides(rows, j);
    hide KeyIndex, Links, DependsOn, ChainRoot, Connected;
    OnlyDependent(rows, first, i, key, rows[i].id);
    OnlyDependent(rows, second, i, key, rows[j].id);
    OnlyLink(first, rows[i].id, rows[i].id);
    OnlyLink(second, rows[i].id, rows[j].id);
    SameElements(first, rows);
    SameElements(second, rows);
    assert rows[i] in rows && rows[j] in rows;
    SameIdentityIffConnected(first, rows[i].id, rows[j].id);
    SameIdentityIffConnected(second, rows[i].id, rows[j].id);
  }

  lemma NamingKey(layout: seq<Row>, i: nat, key: string) returns (rows: seq<Row>)
    requires i < |layout|
    ensures SameButDependencies(rows, layout)
    ensures forall k | 0 <= k < |rows| :: rows[k].dependsOn == if k == i then [key] else []
  {
    rows := seq(|layout|, k requires 0 <= k < |layout| => layout[k].(dependsOn := if k == i then [key] else []));
  }

  /** If one row alone names one key alone, there is one dependency alone. */
  lemma OnlyDependent(rows: seq<Row>, other: seq<Row>, i: nat, key: string, target: string)
    requires i < |rows| && multiset(other) == multiset(rows) && Maps(KeyIndex(other), key, target)
    requires forall k | 0 <= k < |rows| :: rows[k].dependsOn == if k == i then [key] else []
    ensures forall a, b :: DependsOn(other, a, b) <==> a == rows[i].id && b == target
  {
    hide KeyIndex;
    SameElements(other, rows);
    SingleDependency(KeyIndex(other), rows[i], key);
    assert rows[i] in other;
    forall row | row in other ensures row == rows[i] || Dependencies(KeyIndex(other), row) == {} {
      assert row in rows;
    }
  }

  // Two rows whose distinct (repo, node) pairs print as one composite key, and a row that names that key.
  const PLAIN_REPO := Row("1", "p", "a", Some("b::c"), [])
  const NESTED_REPO := Row("2", "p", "a::b", Some("c"), [])
  const DEPENDENT := Row("3", "p", "r", Some("n"), ["a::b::c"])

  /** Such rows are allowed by the table's unique index, and row order then decides who is in whose chain. */
  lemma CollidingKeysFollowOrder()
    ensures var rows := [PLAIN_REPO, NESTED_REPO, DEPENDENT];
            var other := [NESTED_REPO, PLAIN_REPO, DEPENDENT];
            && DistinctIds(rows) && multiset(rows) == multiset(other)
            && (PLAIN_REPO.repo, PLAIN_REPO.node) != (NESTED_REPO.repo, NESTED_REPO.node)
            && Connected(Links(rows), "3", "2") && !Connected(Links(other), "3", "2")
            && "3" in Ids(rows) && "3" in Ids(other)
            && ChainRoot(rows, "3") == "2" && ChainRoot(other, "3") == "1"
  {
    hide Connected, Links, DependsOn, NodeKey, ChainRoot;
    var rows, other := [PLAIN_REPO, NESTED_REPO, DEPENDENT], [NESTED_REPO, PLAIN_REPO, DEPENDENT];
    LastCollidingRowWins(PLAIN_REPO, NESTED_REPO);
    LastCollidingRowWins(NESTED_REPO, PLAIN_REPO);
    OnlyLink(rows, "3", "2");
    OnlyLink(other, "3", "1");
    assert rows[2] in rows && other[2] in other;
    LinkedRoot(rows, "3", "2");
    LinkedRoot(other, "3", "1");
  }

  /** With a single dependency, the dependent row takes the identity of what it depends on. */
  lemma LinkedRoot(rows: seq<Row>, from: string, to: string)
    requires from in Ids(rows) && from != to
    requires forall a, b :: DependsOn(rows, a, b) <==> a == from && b == to
    ensures ChainRoot(rows, from) == to
  {
    OnlyLink(rows, from, to);
    assert DependsOn(rows, from, to);
    DependencyIsRow(rows, from, to);
    assert Chain(rows, from) == {from, to};
    assert ChainRoots(rows, {from, to}) == {to};
    StringLeqTotal(to, to);
    assert IsChainRoot(rows, from, to);
  }

  lemma OnlyLink(rows: seq<Row>, from: string, to: string)
    requires forall a, b :: DependsOn(rows, a, b) <==> a == from && b == to
    ensures forall c :: Connected(Links(rows), from, c) <==> c == from || c == to
  {
    var g := Links(rows);
    assert DependsOn(rows, from, to);
    DependencyIsRow(rows, from, to);
    ConnectedReflexive(g, from);
    ConnectedExtend(g, from, from, to);
    assert forall x | x in g && x in {from, to} :: g[x] <= {from, to};
    forall c | Connected(g, from, c) ensures c == from || c == to {
      ClosedSetHoldsReachable(g, {from, to}, from, c);
    }
  }

  lemma SampleKeys()
    ensures NodeKey(PLAIN_REPO) == "a::b::c" && NodeKey(NESTED_REPO) == "a::b::c"
    ensures NodeKey(DEPENDENT) != "a::b::c"
  {
    assert |NodeKey(DEPENDENT)| == 4;
  }

  lemma LastCollidingRowWins(first: Row, last: Row)
    requires (first == PLAIN_REPO && last == NESTED_REPO) || (first == NESTED_REPO && last == PLAIN_REPO)
    ensures forall a, b :: DependsOn([first, last, DEPENDENT], a, b) <==> a == "3" && b == last.id
  {
    var rows, key := [first, last, DEPENDENT], "a::b::c";
    SampleKeys();
    ThreeRowIndex(first, last, DEPENDENT);
    assert Maps(KeyIndex(rows), key, last.id);
    SingleDependency(KeyIndex(rows), DEPENDENT, key);
    OnlyLastDepends(rows, last.id);
  }

  lemma OnlyLastDepends(rows: seq<Row>, id: string)
    requires |rows| == 3 && rows[0].dependsOn == rows[1].dependsOn == []
    requires Dependencies(KeyIndex(rows), rows[2]) == {id}
    ensures forall a, b :: DependsOn(rows, a, b) <==> a == rows[2].id && b == id
  {
    assert rows[2] in rows;
  }

  lemma SingleDependency(index: map<string, string>, row: Row, key: string)
    requires row.dependsOn == [key] && key in index
    ensures Dependencies(index, row) == {index[key]}
  {
    assert row.dependsOn[0] == key;
  }

  lemma ThreeRowIndex(a: Row, b: Row, c: Row)
    requires a.node.Some? && b.node.Some? && c.node.Some?
    ensures KeyIndex([a, b, c]) == map[NodeKey(a) := a.id][NodeKey(b) := b.id][NodeKey(c) := c.id]
  {
    assert [a, b, c][..2] == [a, b] && [a, b][..1] == [a] && [a][..0] == [];
    assert KeyIndex([a]) == map[NodeKey(a) := a.id];
    assert KeyIndex([a, b]) == map[NodeKey(a) := a.id][NodeKey(b) := b.id];
  }
}
