/** The backfill itself: adjacency sets, the stack search, root choice and the row updates. */
module ChainBackfill {
  import opened Common
  import opened Graphs
  import opened TaskChains
  import opened ComponentSearch

  /** The dependency pairs declared by the first `k` keys of a row. */
  ghost function DeclaredKeys(row: Row, k: nat, index: map<string, string>): set<(string, string)>
    requires k <= |row.dependsOn|
  {
    set j | 0 <= j < k && row.dependsOn[j] in index :: (row.id, index[row.dependsOn[j]])
  }

  ghost function DeclaredRows(rows: seq<Row>, index: map<string, string>): set<(string, string)> {
    if rows == [] then {}
    else
      var last := rows[|rows| - 1];
      DeclaredRows(rows[..|rows| - 1], index) + DeclaredKeys(last, |last.dependsOn|, index)
  }

  lemma {:induction false} DeclaredMeansDependsOn(rows: seq<Row>, index: map<string, string>, a: string, b: string)
    ensures (a, b) in DeclaredRows(rows, index) <==> exists row ::
      row in rows && row.id == a && b in Dependencies(index, row)
  {
    if rows != [] {
      var n := |rows| - 1;
      DeclaredMeansDependsOn(rows[..n], index, a, b);
      assert rows == rows[..n] + [rows[n]];
      KeysMeanDependencies(rows[n], index, a, b);
      assert rows[n] in rows;
    }
  }

  lemma KeysMeanDependencies(row: Row, index: map<string, string>, a: string, b: string)
    ensures (a, b) in DeclaredKeys(row, |row.dependsOn|, index) <==> row.id == a && b in Dependencies(index, row)
  {
    if row.id == a && b in Dependencies(index, row) {
      var key :| key in row.dependsOn && key in index && index[key] == b;
      var j :| 0 <= j < |row.dependsOn| && row.dependsOn[j] == key;
      assert (a, b) == (row.id, index[row.dependsOn[j]]);
    }
  }

  ghost predicate Mirrors(g: Graph<string>, pairs: set<(string, string)>) {
    forall a, b | a in g :: b in g[a] <==> (a, b) in pairs || (b, a) in pairs
  }

  /** Adds both directions of every resolved dependency, row by row and key by key. */
  method BuildAdjacency(rows: seq<Row>, index: map<string, string>) returns (adjacency: Graph<string>)
    requires index == KeyIndex(rows)
    ensures adjacency == Links(rows)
  {
    adjacency := map row | row in rows :: row.id := {};
    for i := 0 to |rows|
      invariant adjacency.Keys == Ids(rows) && Mirrors(adjacency, DeclaredRows(rows[..i], index))
    {
      ghost var before := DeclaredRows(rows[..i], index);
      adjacency := AddDependencies(rows[i], index, adjacency, before);
      assert rows[..i + 1][..i] == rows[..i];
    }
    assert rows[..|rows|] == rows;
    MirrorIsLinks(rows, adjacency);
  }

  method AddDependencies(row: Row, index: map<string, string>, adjacency0: Graph<string>,
                         ghost before: set<(string, string)>)
    returns (adjacency: Graph<string>)
    requires row.id in adjacency0 && index.Values <= adjacency0.Keys
    requires Mirrors(adjacency0, before)
    ensures adjacency.Keys == adjacency0.Keys
    ensures Mirrors(adjacency, before + DeclaredKeys(row, |row.dependsOn|, index))
  {
    adjacency := adjacency0;
    for k := 0 to |row.dependsOn|
      invariant adjacency.Keys == adjacency0.Keys && Mirrors(adjacency, before + DeclaredKeys(row, k, index))
    {
      var key := row.dependsOn[k];
      ghost var pairs := before + DeclaredKeys(row, k, index);
      if key in index {
        assert index[key] in index.Values;
        adjacency := AddBoth(adjacency, row.id, index[key], pairs);
        assert before + DeclaredKeys(row, k + 1, index) == pairs + {(row.id, index[key])};
      } else {
        assert before + DeclaredKeys(row, k + 1, index) == pairs;
      }
    }
  }

  method AddBoth(g: Graph<string>, from: string, to: string, ghost pairs: set<(string, string)>)
    returns (r: Graph<string>)
    requires from in g && to in g && Mirrors(g, pairs)
    ensures r.Keys == g.Keys && Mirrors(r, pairs + {(from, to)})
  {
    r := g[from := g[from] + {to}];
    r := r[to := r[to] + {from}];
  }

  lemma MirrorIsLinks(rows: seq<Row>, g: Graph<string>)
    requires g.Keys == Ids(rows) && Mirrors(g, DeclaredRows(rows, KeyIndex(rows)))
    ensures g == Links(rows)
  {
    forall a, b ensures (a, b) in DeclaredRows(rows, KeyIndex(rows)) <==> DependsOn(rows, a, b) {
      DeclaredMeansDependsOn(rows, KeyIndex(rows), a, b);
    }
    forall a | a in g ensures g[a] == Links(rows)[a] {
      forall b ensures b in g[a] <==> b in Links(rows)[a] {
        if DependsOn(rows, a, b) { DependencyIsRow(rows, a, b); }
        if DependsOn(rows, b, a) { DependencyIsRow(rows, b, a); }
      }
    }
  }

  predicate HasInnerDependency(row: Row, index: map<string, string>, component: set<string>) {
    exists key :: key in row.dependsOn && key in index && index[key] in component
  }

  /** The members of a component whose row has no dependency that resolves inside the component. */
  function RootsOf(component: seq<string>, rowsById: map<string, Row>, index: map<string, string>, inner: set<string>)
    : (roots: seq<string>)
    requires forall id | id in component :: id in rowsById
    ensures forall id :: id in roots <==> id in component && !HasInnerDependency(rowsById[id], index, inner)
  {
    if component == [] then []
    else
      var rest := RootsOf(component[1..], rowsById, index, inner);
      if HasInnerDependency(rowsById[component[0]], index, inner) then rest else [component[0]] + rest
  }

  ghost predicate IndexesById(rowsById: map<string, Row>, rows: seq<Row>) {
    forall row | row in rows :: row.id in rowsById && rowsById[row.id] == row
  }

  /** Taking the least root, or the least member when there is no root, yields the chain's identity. */
  method ChooseRoot(rows: seq<Row>, rowsById: map<string, Row>, index: map<string, string>, component: seq<string>,
                    ghost start: string) returns (root: string)
    requires index == KeyIndex(rows) && IndexesById(rowsById, rows)
    requires start in Ids(rows) && Elements(component) == Chain(rows, start)
    ensures IsChainRoot(rows, start, root)
    ensures FirstOfChain(rows, start, root)
  {
    MembersAreRows(rows, rowsById, component, start);
    var roots := RootsOf(component, rowsById, index, Elements(component));
    root := Least(if roots != [] then roots else component);
    RootsAreChainRoots(rows, rowsById, component, roots, start);
    LeastOfElements(rows, component, roots, root, start);
    IdentityIffFirst(rows, start, root);
  }

  lemma MembersAreRows(rows: seq<Row>, rowsById: map<string, Row>, component: seq<string>, start: string)
    requires IndexesById(rowsById, rows)
    requires start in Ids(rows) && Elements(component) == Chain(rows, start)
    ensures component != []
    ensures forall id | id in component :: id in rowsById
  {
    ConnectedReflexive(Links(rows), start);
    assert start in Elements(component);
    forall id | id in component ensures id in rowsById {
      assert id in Elements(component);
      var row :| row in rows && row.id == id;
    }
  }

  lemma LeastOfElements(rows: seq<Row>, component: seq<string>, roots: seq<string>, root: string, start: string)
    requires Elements(component) == Chain(rows, start)
    requires Elements(roots) == ChainRoots(rows, Chain(rows, start))
    requires root in (if roots != [] then roots else component)
    requires forall x | x in (if roots != [] then roots else component) :: StringLeq(root, x)
    ensures IsChainRoot(rows, start, root)
  {
    assert roots != [] ==> roots[0] in Elements(roots);
    assert forall x :: x in roots <==> x in Elements(roots);
    assert forall x :: x in component <==> x in Elements(component);
  }

  lemma RootsAreChainRoots(rows: seq<Row>, rowsById: map<string, Row>, component: seq<string>, roots: seq<string>,
                           start: string)
    requires IndexesById(rowsById, rows) && Elements(component) == Chain(rows, start)
    requires forall id | id in component :: id in rowsById
    requires forall id :: id in roots
                     <==> id in component && !HasInnerDependency(rowsById[id], KeyIndex(rows), Chain(rows, start))
    ensures Elements(roots) == ChainRoots(rows, Chain(rows, start))
  {
    var chain := Chain(rows, start);
    forall id ensures id in roots <==> id in ChainRoots(rows, chain) {
      assert id in component <==> id in Elements(component);
      if id in component { InnerDependencyMeansAny(rows, rowsById, id, start); }
    }
  }

  lemma ChainShares(rows: seq<Row>, start: string, root: string)
    requires start in Ids(rows) && IsChainRoot(rows, start, root)
    ensures forall id | id in Chain(rows, start) :: id in Ids(rows) && root == ChainRoot(rows, id)
  {
    forall id | id in Chain(rows, start) ensures root == ChainRoot(rows, id) {
      SameIdentityIffConnected(rows, start, id);
    }
  }

  lemma InnerDependencyMeansAny(rows: seq<Row>, rowsById: map<string, Row>, id: string, start: string)
    requires IndexesById(rowsById, rows) && id in Chain(rows, start)
    ensures id in rowsById
    ensures HasInnerDependency(rowsById[id], KeyIndex(rows), Chain(rows, start)) <==> exists b :: DependsOn(rows, id, b)
  {
    var index := KeyIndex(rows);
    var row :| row in rows && row.id == id;
    if key :| key in row.dependsOn && key in index && index[key] in Chain(rows, start) {
      assert index[key] in Dependencies(index, row);
      assert DependsOn(rows, id, index[key]);
    }
    if b :| DependsOn(rows, id, b) {
      DependencyStaysInChain(rows, start, id, b);
      var source :| source in rows && source.id == id && b in Dependencies(index, source);
      assert source == row;
      var key :| key in row.dependsOn && key in index && index[key] == b;
    }
  }

  /** Every id of an update list, in the order the statements write them. */
  function Written(updates: seq<Update>): seq<string> {
    if updates == [] then [] else Written(updates[..|updates| - 1]) + updates[|updates| - 1].ids
  }

  ghost predicate AssignsIdentities(rows: seq<Row>, updates: seq<Update>) {
    forall u, id | u in updates && id in u.ids :: id in Ids(rows) && u.root == ChainRoot(rows, id)
  }

  /** What the outer loop keeps: whole components are visited, and exactly they have been written. */
  ghost predicate Backfilling(rows: seq<Row>, visited: set<string>, updates: seq<Update>) {
    && Closed(Links(rows), visited)
    && Distinct(Written(updates)) && Elements(Written(updates)) == visited
    && AssignsIdentities(rows, updates)
  }

  lemma AddUpdate(rows: seq<Row>, visited: set<string>, updates: seq<Update>, component: seq<string>, root: string,
                  start: string)
    requires start in Ids(rows) && IsChainRoot(rows, start, root)
    requires Distinct(component) && Elements(component) == Chain(rows, start)
    requires visited !! Chain(rows, start) && Closed(Links(rows), visited + Chain(rows, start))
    requires Backfilling(rows, visited, updates)
    ensures Backfilling(rows, visited + Chain(rows, start), updates + [Update(root, component)])
  {
    var more := updates + [Update(root, component)];
    assert more[..|more| - 1] == updates;
    DistinctAppend(Written(updates), component);
    AppendElements(Written(updates), component);
    AddAssignment(rows, updates, component, root, start);
  }

  lemma AddAssignment(rows: seq<Row>, updates: seq<Update>, component: seq<string>, root: string, start: string)
    requires start in Ids(rows) && IsChainRoot(rows, start, root)
    requires Elements(component) == Chain(rows, start) && AssignsIdentities(rows, updates)
    ensures AssignsIdentities(rows, updates + [Update(root, component)])
  {
    hide Chain, ChainRoot, IsChainRoot, Ids;
    var more := updates + [Update(root, component)];
    ChainShares(rows, start, root);
    forall u, id | u in more && id in u.ids ensures id in Ids(rows) && u.root == ChainRoot(rows, id) {
      if u !in updates {
        assert id in Elements(component);
      }
    }
  }

  /** One project: each of its rows is written exactly once, with its chain's identity. */
  method BackfillProject(rows: seq<Row>, rowsById: map<string, Row>) returns (updates: seq<Update>)
    requires IndexesById(rowsById, rows)
    ensures Distinct(Written(updates))
    ensures Elements(Written(updates)) == Ids(rows)
    ensures AssignsIdentities(rows, updates)
  {
    var index := KeyIndex(rows);
    var adjacency := BuildAdjacency(rows, index);
    var visited: set<string> := {};
    updates := [];
    for i := 0 to |rows|
      invariant visited <= Ids(rows) && forall j | 0 <= j < i :: rows[j].id in visited
      invariant Backfilling(rows, visited, updates)
    {
      if rows[i].id !in visited {
        updates, visited := BackfillComponent(rows, rowsById, index, adjacency, rows[i].id, visited, updates);
      }
    }
  }

  /** One pass of the outer loop that starts from a row not visited yet. */
  method BackfillComponent(rows: seq<Row>, rowsById: map<string, Row>, index: map<string, string>,
                           adjacency: Graph<string>,
                           start: string, visited0: set<string>, updates0: seq<Update>)
    returns (updates: seq<Update>, visited: set<string>)
    requires index == KeyIndex(rows) && adjacency == Links(rows) && IndexesById(rowsById, rows)
    requires start in Ids(rows) && start !in visited0 && Backfilling(rows, visited0, updates0)
    ensures visited0 <= visited <= Ids(rows) && start in visited
    ensures Backfilling(rows, visited, updates)
  {
    var component;
    component, visited := Explore(adjacency, start, visited0);
    ComponentIsClosed(adjacency, start);
    var root := ChooseRoot(rows, rowsById, index, component, start);
    AddUpdate(rows, visited0, updates0, component, root, start);
    updates := updates0 + [Update(root, component)];
  }

  // ---- All projects ----

  function ProjectRows(rows: seq<Row>, project: string): seq<Row> {
    if rows == [] then []
    else
      var n := |rows| - 1;
      ProjectRows(rows[..n], project) + (if rows[n].project == project then [rows[n]] else [])
  }

  lemma {:induction false} ProjectRowsMembers(rows: seq<Row>, project: string)
    ensures forall row :: row in ProjectRows(rows, project) <==> row in rows && row.project == project
  {
    if rows != [] {
      var n := |rows| - 1;
      ProjectRowsMembers(rows[..n], project);
      assert rows == rows[..n] + [rows[n]];
    }
  }

  /** The selection keeps the order of the rows. */
  lemma {:induction false} ProjectRowsAppend(rows: seq<Row>, more: seq<Row>, project: string)
    ensures ProjectRows(rows + more, project) == ProjectRows(rows, project) + ProjectRows(more, project)
  {
    var n := |more| - 1;
    if more == [] {
      assert rows + more == rows;
    } else {
      ProjectRowsAppend(rows, more[..n], project);
      assert (rows + more)[..|rows| + n] == rows + more[..n];
    }
  }

  ghost predicate Grouped(rows: seq<Row>, projects: seq<string>, groups: map<string, seq<Row>>) {
    && Distinct(projects)
    && (forall p :: p in projects <==> HasProject(rows, p))
    && (forall p :: p in projects <==> p in groups)
    && (forall p :: ProjectRows(rows, p) == if p in groups then groups[p] else [])
  }

  ghost predicate HasProject(rows: seq<Row>, p: string) {
    exists row :: row in rows && row.project == p
  }

  lemma HasProjectMore(rows: seq<Row>, row: Row, p: string)
    ensures HasProject(rows + [row], p) <==> HasProject(rows, p) || row.project == p
  {
    assert (rows + [row])[|rows|] == row;
  }

  lemma ProjectRowsMore(rows: seq<Row>, row: Row, p: string)
    ensures ProjectRows(rows + [row], p) == ProjectRows(rows, p) + if row.project == p then [row] else []
  {
    AppendLast(rows, row);
  }

  lemma GroupedMore(rows: seq<Row>, row: Row, projects: seq<string>, groups: map<string, seq<Row>>)
    requires Grouped(rows, projects, groups)
    ensures var p := row.project;
      if p in groups then Grouped(rows + [row], projects, groups[p := groups[p] + [row]])
      else Grouped(rows + [row], projects + [p], groups[p := [row]])
  {
    hide HasProject, ProjectRows;
    forall p ensures HasProject(rows + [row], p) <==> HasProject(rows, p) || row.project == p {
      HasProjectMore(rows, row, p);
    }
    forall p
      ensures ProjectRows(rows + [row], p) == ProjectRows(rows, p) + if row.project == p then [row] else []
    {
      ProjectRowsMore(rows, row, p);
    }
  }

  /** The grouping of rows by project, keys in order of first appearance. */
  method GroupByProject(rows: seq<Row>) returns (projects: seq<string>, groups: map<string, seq<Row>>)
    ensures Distinct(projects)
    ensures forall p :: p in projects <==> HasProject(rows, p)
    ensures forall p :: p in projects <==> p in groups
    ensures forall p | p in groups :: groups[p] == ProjectRows(rows, p)
  {
    projects, groups := [], map[];
    for i := 0 to |rows|
      invariant Grouped(rows[..i], projects, groups)
    {
      TakeOneMore(rows, i);
      projects, groups := AddToGroup(rows[..i], rows[i], projects, groups);
    }
    assert rows[..|rows|] == rows;
  }

  method AddToGroup(ghost rows: seq<Row>, row: Row, projects0: seq<string>, groups0: map<string, seq<Row>>)
    returns (projects: seq<string>, groups: map<string, seq<Row>>)
    requires Grouped(rows, projects0, groups0)
    ensures Grouped(rows + [row], projects, groups)
  {
    GroupedMore(rows, row, projects0, groups0);
    hide Grouped;
    var p := row.project;
    projects, groups := projects0, groups0;
    if p !in groups {
      projects, groups := projects + [p], groups[p := []];
      assert [] + [row] == [row];
    }
    groups := groups[p := groups[p] + [row]];
  }

  /** One UPDATE, on the column as a dictionary. */
  ghost predicate Applied(before: map<string, string>, u: Update, after: map<string, string>) {
    && (forall id :: id in after <==> id in before || id in u.ids)
    && (forall id | id in after :: after[id] == if id in u.ids then u.root else before[id])
  }

  /** The column after UPDATE statements that have written the listed rows of a project. */
  ghost predicate Executed(group: seq<Row>, before: map<string, string>, now: map<string, string>,
                           written: seq<string>)
  {
    && now.Keys == before.Keys + Elements(written)
    && (forall id | id in written :: id in Ids(group) && now[id] == ChainRoot(group, id))
    && (forall id | id in before && id !in Ids(group) :: now[id] == before[id])
  }

  lemma NothingExecuted(group: seq<Row>, before: map<string, string>)
    ensures Executed(group, before, before, [])
  {
  }

  lemma WrittenMore(updates: seq<Update>, k: nat)
    requires k < |updates|
    ensures Written(updates[..k + 1]) == Written(updates[..k]) + updates[k].ids
  {
    assert updates[..k + 1][..k] == updates[..k];
  }

  lemma ExecutedMore(group: seq<Row>, before: map<string, string>, now: map<string, string>, next: map<string, string>,
                     written: seq<string>, u: Update)
    requires Executed(group, before, now, written) && Applied(now, u, next)
    requires forall id | id in u.ids :: id in Ids(group) && u.root == ChainRoot(group, id)
    ensures Executed(group, before, next, written + u.ids)
  {
    hide ChainRoot, Ids;
    AppendElements(written, u.ids);
  }

  /** The `task_links` table with its new column; an id without an entry holds NULL. */
  class TaskLinkTable {
    const rows: seq<Row>
    var chainRoot: map<string, string>

    constructor (rows: seq<Row>)
      ensures this.rows == rows && chainRoot == map[]
    {
      this.rows := rows;
      chainRoot := map[];
    }

    /** One UPDATE: rows named in the statement take its root, all others keep theirs. */
    method Execute(u: Update)
      modifies this`chainRoot
      ensures Applied(old(chainRoot), u, chainRoot)
    {
      chainRoot := chainRoot + map id | id in u.ids :: u.root;
    }

    /** All UPDATE statements of one project, in order. */
    method ExecuteAll(updates: seq<Update>, group: seq<Row>)
      requires AssignsIdentities(group, updates)
      modifies this`chainRoot
      ensures Executed(group, old(chainRoot), chainRoot, Written(updates))
    {
      hide ChainRoot, Ids, Executed, Applied;
      ghost var before := chainRoot;
      assert Executed(group, before, chainRoot, Written(updates[..0])) by { NothingExecuted(group, before); }
      for k := 0 to |updates|
        invariant Executed(group, before, chainRoot, Written(updates[..k]))
      {
        ghost var now := chainRoot;
        Execute(updates[k]);
        WrittenMore(updates, k);
        ExecutedMore(group, before, now, chainRoot, Written(updates[..k]), updates[k]);
      }
      assert updates[..|updates|] == updates;
    }

    /** After the upgrade every row holds the identity of its chain within its own project. */
    method Upgrade()
      requires DistinctIds(rows) && chainRoot == map[]
      modifies this`chainRoot
      ensures chainRoot.Keys == Ids(rows)
      ensures forall row | row in rows :: HoldsIdentity(rows, chainRoot, row)
      ensures forall row | row in rows :: HoldsFirst(rows, chainRoot, row)
    {
      hide ChainRoot, ProjectRows, HoldsIdentity, HoldsFirst, Distinct, AssignsIdentities, Executed;
      var rowsById := map row | row in rows :: row.id := row;
      var projects, groups := GroupByProject(rows);
      for i := 0 to |projects|
        invariant forall id :: id in chainRoot <==> exists row ::
          row in rows && row.id == id && row.project in projects[..i]
        invariant forall row | row in rows && row.project in projects[..i] :: HoldsIdentity(rows, chainRoot, row)
      {
        var group := groups[projects[i]];
        ProjectRowsMembers(rows, projects[i]);
        var updates := BackfillProject(group, rowsById);
        ghost var before := chainRoot;
        ExecuteAll(updates, group);
        ProjectDone(rows, projects, i, before, chainRoot, Written(updates));
      }
      assert projects[..|projects|] == projects;
      forall row | row in rows ensures HoldsFirst(rows, chainRoot, row) { IdentityIsFirst(rows, chainRoot, row); }
    }
  }

  /** The row holds the first id of its chain, read off the dependencies and the order of strings alone. */
  ghost predicate HoldsFirst(rows: seq<Row>, chainRoot: map<string, string>, row: Row) {
    row.id in chainRoot && FirstOfChain(ProjectRows(rows, row.project), row.id, chainRoot[row.id])
  }

  lemma IdentityIsFirst(rows: seq<Row>, chainRoot: map<string, string>, row: Row)
    requires HoldsIdentity(rows, chainRoot, row)
    ensures HoldsFirst(rows, chainRoot, row)
  {
    IdentityIffFirst(ProjectRows(rows, row.project), row.id, chainRoot[row.id]);
  }

  ghost predicate HoldsIdentity(rows: seq<Row>, chainRoot: map<string, string>, row: Row) {
    var group := ProjectRows(rows, row.project);
    row.id in Ids(group) && row.id in chainRoot && chainRoot[row.id] == ChainRoot(group, row.id)
  }

  lemma ProjectDone(rows: seq<Row>, projects: seq<string>, i: nat, before: map<string, string>,
                    after: map<string, string>, written: seq<string>)
    requires DistinctIds(rows) && i < |projects| && Distinct(projects)
    requires forall id :: id in before <==> exists row :: row in rows && row.id == id && row.project in projects[..i]
    requires forall row | row in rows && row.project in projects[..i] :: HoldsIdentity(rows, before, row)
    requires Elements(written) == Ids(ProjectRows(rows, projects[i]))
    requires Executed(ProjectRows(rows, projects[i]), before, after, written)
    ensures forall id :: id in after <==> exists row :: row in rows && row.id == id && row.project in projects[..i + 1]
    ensures forall row | row in rows && row.project in projects[..i + 1] :: HoldsIdentity(rows, after, row)
  {
    hide HoldsIdentity, ProjectRows;
    assert projects[..i + 1] == projects[..i] + [projects[i]];
    forall row | row in rows && row.project in projects[..i + 1] ensures HoldsIdentity(rows, after, row) {
      if row.project == projects[i] {
        NewlyHolds(rows, row, before, after, written);
      } else {
        StillHolds(rows, row, projects[i], before, after, written);
      }
    }
    WrittenRows(rows, projects, i, before, after, written);
  }

  lemma WrittenRows(rows: seq<Row>, projects: seq<string>, i: nat, before: map<string, string>,
                    after: map<string, string>, written: seq<string>)
    requires i < |projects| && after.Keys == before.Keys + Elements(written)
    requires forall id :: id in before <==> exists row :: row in rows && row.id == id && row.project in projects[..i]
    requires Elements(written) == Ids(ProjectRows(rows, projects[i]))
    ensures forall id :: id in after <==> exists row :: row in rows && row.id == id && row.project in projects[..i + 1]
  {
    ProjectRowsMembers(rows, projects[i]);
    hide ProjectRows;
    assert projects[..i + 1] == projects[..i] + [projects[i]];
    var group := ProjectRows(rows, projects[i]);
    forall id ensures id in after <==> exists row :: row in rows && row.id == id && row.project in projects[..i + 1] {
      if id in Ids(group) { var row :| row in group && row.id == id; assert row in rows; }
      if row :| row in rows && row.id == id && row.project in projects[..i + 1] {
        if row.project == projects[i] { assert row in group; }
      }
    }
  }

  lemma NewlyHolds(rows: seq<Row>, row: Row, before: map<string, string>, after: map<string, string>,
                   written: seq<string>)
    requires row in rows && Elements(written) == Ids(ProjectRows(rows, row.project))
    requires Executed(ProjectRows(rows, row.project), before, after, written)
    ensures HoldsIdentity(rows, after, row)
  {
    ProjectRowsMembers(rows, row.project);
    hide ChainRoot, ProjectRows;
    assert row.id in Elements(written);
  }

  lemma StillHolds(rows: seq<Row>, row: Row, project: string, before: map<string, string>, after: map<string, string>,
                   written: seq<string>)
    requires DistinctIds(rows) && row in rows && row.project != project
    requires Executed(ProjectRows(rows, project), before, after, written) && HoldsIdentity(rows, before, row)
    ensures HoldsIdentity(rows, after, row)
  {
    ProjectRowsMembers(rows, project);
    hide ChainRoot, ProjectRows;
    assert row.id !in Ids(ProjectRows(rows, project));
  }

  /** Over the whole table, two rows hold the same identity exactly when they are of one project and connected in it. */
  lemma SameIdentityAcrossProjects(rows: seq<Row>, a: Row, b: Row)
    requires DistinctIds(rows) && a in rows && b in rows
    ensures a.id in Ids(ProjectRows(rows, a.project)) && b.id in Ids(ProjectRows(rows, b.project))
    ensures ChainRoot(ProjectRows(rows, a.project), a.id) == ChainRoot(ProjectRows(rows, b.project), b.id)
       <==> a.project == b.project && Connected(Links(ProjectRows(rows, a.project)), a.id, b.id)
  {
    ProjectRowsMembers(rows, a.project);
    ProjectRowsMembers(rows, b.project);
    if a.project == b.project {
      SameIdentityIffConnected(ProjectRows(rows, a.project), a.id, b.id);
    } else {
      RootIsItsOwnRoot(ProjectRows(rows, a.project), a.id);
      RootIsItsOwnRoot(ProjectRows(rows, b.project), b.id);
    }
  }
}
