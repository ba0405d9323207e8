/**
 Leaf plans and their meaning, path by path.

 Everything here is said of the references that a path takes and of the rows of their
 scope maps: which paths lead to a leaf, which roots the selectors on a path choose, and
 what a scope is called after the maps of the path.  The functions that compute plans and
 meanings are then shown to do just that.
 */
module PathLaws {
  import opened Wrappers
  import opened Manifests
  import opened Unfoldings
  import opened LeafPlans
  import opened LeafPaths
  import opened BackReferences
  import opened Parts
  import opened PlanMeaning
  import opened PlanChecker
  import opened RootPlan
  import opened RootPairing
  import opened RootTheorems
  import PlanTheorems
  import PathEnumerator
  import LeafResolver

  // ----- which paths lead to a leaf

  /** A container with a local segment, or a direct view whose leaf is retained or not empty. */
  predicate IsLeaf(g: Graph, keepEmpty: bool, v: ViewId) {
    && v in g
    && if g[v].kind.Direct? then keepEmpty || |g[v].table.roots| > 0 else g[v].local
  }

  /**
   The path follows references, below INCLUDE none, and ends with the segment behind the
   references of the view it has reached.
   */
  predicate LeadsToEnd(g: Graph, v: ViewId, local: bool, path: Path)
    decreases |path|
  {
    && path != [] && v in g
    && if |path| == 1 then path[0] == |g[v].refs|
       else
         && !local && path[0] < |g[v].refs|
         && LeadsToEnd(g, g[v].refs[path[0]].source, g[v].refs[path[0]].posting.Include?, path[1..])
  }

  /** The view that the references of a path lead to. */
  function EndView(g: Graph, v: ViewId, path: Path): ViewId
    decreases |path|
  {
    if |path| <= 1 || v !in g || path[0] >= |g[v].refs| then v else EndView(g, g[v].refs[path[0]].source, path[1..])
  }

  predicate LeadsToLeaf(g: Graph, keepEmpty: bool, v: ViewId, local: bool, path: Path) {
    LeadsToEnd(g, v, local, path) && IsLeaf(g, keepEmpty, EndView(g, v, path))
  }

  lemma {:induction false} OneStepDown(g: Graph, t: Tree, i: nat, below: Path)
    requires Unfolds(g, t) && below != []
    ensures LeadsToEnd(g, t.view, t.local, [i] + below) <==>
      i < |t.children| && LeadsToEnd(g, t.children[i].view, t.children[i].local, below)
    ensures i < |t.children| ==> EndView(g, t.view, [i] + below) == EndView(g, t.children[i].view, below)
  {
    assert ([i] + below)[1..] == below;
    if i < |t.children| {
      ChildUnfolds(g, t, i);
    }
  }

  /** The leaf paths of an unfolding are the paths that lead to a leaf. */
  lemma {:induction false} PathsLeadToLeaves(g: Graph, keepEmpty: bool, t: Tree, path: Path)
    requires Unfolds(g, t)
    ensures path in PathSet(Paths(g, keepEmpty, t)) <==> LeadsToLeaf(g, keepEmpty, t.view, t.local, path)
    decreases t
  {
    PathSetConcat(OwnPaths(g, keepEmpty, t.view), KidsPaths(g, keepEmpty, t.children));
    if path in PathSet(KidsPaths(g, keepEmpty, t.children)) {
      var i, below := LeafOfChild(g, keepEmpty, t.view, t.children, path);
      ChildUnfolds(g, t, i);
      OneStepDown(g, t, i, below);
      PathsLeadToLeaves(g, keepEmpty, t.children[i], below);
    }
    if LeadsToLeaf(g, keepEmpty, t.view, t.local, path) {
      if |path| == 1 {
        assert path == [path[0]];
        assert OwnPaths(g, keepEmpty, t.view) == [path];
        assert OwnPaths(g, keepEmpty, t.view)[0] == path;
      } else {
        var i, below := path[0], path[1..];
        assert path == [i] + below;
        OneStepDown(g, t, i, below);
        ChildUnfolds(g, t, i);
        PathsLeadToLeaves(g, keepEmpty, t.children[i], below);
        ChildPathIsPath(g, keepEmpty, t.children, i, below);
      }
    }
  }

  /** What the native enumeration returns are exactly the paths that lead to a leaf. */
  lemma {:induction false} EnumeratedPaths(task: PathEnumerator.Task, result: PathEnumerator.Enumeration, path: Path)
    requires PathEnumerator.AllJustified(task, result) && result.Enumerated?
    ensures path in result.paths <==> LeadsToLeaf(task.graph, task.keepEmpty, task.root, false, path)
  {
    hide LeadsToLeaf, PathEnumerator.Enumerable, Unfolds, Paths, PathSet;
    assert PathEnumerator.Grounded(task, result);
    var t :| UnfoldingOf(task.graph, Key(task.root, false), t);
    assert PathEnumerator.Justified(task, t, result);
    PathsLeadToLeaves(task.graph, task.keepEmpty, t, path);
  }

  /** Every path that lead to a leaf has exactly one row of a plan, bound to the view it leads to. */
  lemma {:induction false} PlannedPaths(task: LeafResolver.Task, result: LeafResolver.PlanResult, path: Path)
    requires LeafResolver.AllJustified(task, result) && result.Planned?
    ensures LeadsToLeaf(task.graph, task.keepEmpty, task.root, false, path) <==>
      exists i | 0 <= i < |result.rows| :: result.rows[i].path == path
    ensures forall i | 0 <= i < |result.rows| && result.rows[i].path == path ::
      result.rows[i].view == EndView(task.graph, task.root, path)
    ensures forall i, j | 0 <= i < j < |result.rows| :: result.rows[i].path != result.rows[j].path
  {
    hide LeadsToLeaf, LeafResolver.Admitted, Unfolds, Paths, PathSet, Rows, RowAt, EndView;
    assert LeafResolver.Grounded(task, result);
    var t :| UnfoldingOf(task.graph, Key(task.root, false), t);
    var rows := PlannedRows(task, result, t);
    PathsLeadToLeaves(task.graph, task.keepEmpty, t, path);
    PlanClaimsPaths(task.graph, task.keepEmpty, t);
    if path in PathSet(RowPaths(rows)) {
      var i := IndexOfPath(rows, path);
    }
    forall i | 0 <= i < |rows| && rows[i].path == path ensures path in PathSet(RowPaths(rows))
      ensures rows[i].view == EndView(task.graph, task.root, path)
    {
      PathIsListed(rows, i);
      PlanIsDemanded(task.graph, task.keepEmpty, t);
      DemandedEnd(task.graph, task.root, path, rows[i].view);
    }
    RowsHaveOwnPaths(rows);
  }

  lemma {:induction false} PlannedRows(task: LeafResolver.Task, result: LeafResolver.PlanResult, t: Tree)
    returns (rows: seq<Row>)
    requires LeafResolver.AllJustified(task, result) && result.Planned?
    requires UnfoldingOf(task.graph, Key(task.root, false), t)
    ensures rows == result.rows && Rows(task.graph, task.keepEmpty, t) == Some(rows)
    ensures AllManifestsValid(task.graph, t) && AllReadable(task.graph, t)
  {
    hide Unfolds, ValidView, ValidManifest, Rows;
    rows := result.rows;
    assert LeafResolver.Justified(task.graph, task.keepEmpty, task.limits, t, result);
    PlanTheorems.ValidHasManifests(task.graph, t);
    ValidIsReadable(task.graph, t);
  }

  lemma {:induction false} DemandedEnd(g: Graph, v: ViewId, path: Path, target: ViewId)
    requires RowAt(g, v, path, target, false).Some?
    ensures target == EndView(g, v, path)
    decreases |path|
  {
    if |path| > 1 {
      DemandedEnd(g, Refs(g, v)[path[0]].source, path[1..], target);
    }
  }

  lemma {:induction false} RowsHaveOwnPaths(rows: seq<Row>)
    requires |PathSet(RowPaths(rows))| == |rows|
    ensures forall i, j | 0 <= i < j < |rows| :: rows[i].path != rows[j].path
    decreases |rows|
  {
    hide PathSet;
    if rows != [] {
      var init := rows[..|rows| - 1];
      DistinctPathsShrink(rows);
      RowsHaveOwnPaths(init);
      forall i | 0 <= i < |init| ensures init[i].path in PathSet(RowPaths(init)) {
        PathIsListed(init, i);
      }
    }
  }

  /** With retained empty leaves every direct view that is reached has its path. */
  lemma {:induction false} DirectViewsHavePaths(g: Graph, t: Tree, p: seq<nat>)
    requires Unfolds(g, t) && PathIn(t, p)
    requires At(t, p).view in g && g[At(t, p).view].kind.Direct? && g[At(t, p).view].refs == []
    ensures p + [0] in PathSet(Paths(g, true, t))
    decreases t
  {
    PathsLeadToLeaves(g, true, t, p + [0]);
    if p == [] {
      assert p + [0] == [0];
    } else {
      ChildUnfolds(g, t, p[0]);
      DirectViewsHavePaths(g, t.children[p[0]], p[1..]);
      PathsLeadToLeaves(g, true, t.children[p[0]], p[1..] + [0]);
      OneStepDown(g, t, p[0], p[1..] + [0]);
      assert p + [0] == [p[0]] + (p[1..] + [0]);
    }
  }

  // ----- what a scope is called

  /** A map takes a scope to the target of its row, or leaves it if it has no row for it. */
  ghost predicate Takes(m: ScopeMap, s: Scope, t: Scope) {
    || (exists j | 0 <= j < |m| :: m[j] == ScopeRow(s, t))
    || (t == s && forall j | 0 <= j < |m| :: m[j].source != s)
  }

  /** The maps one after the other. */
  ghost predicate TakesAll(chain: seq<ScopeMap>, s: Scope, t: Scope)
    decreases |chain|
  {
    if chain == [] then t == s
    else
      var init, last := chain[..|chain| - 1], chain[|chain| - 1];
      exists mid :: TakesAll(init, s, mid) && Takes(last, mid, t)
  }

  /** The maps of the references on a path, the one next to the end first. */
  ghost predicate TakenAlong(g: Graph, v: ViewId, path: Path, s: Scope, t: Scope)
    decreases |path|
  {
    if |path| <= 1 then t == s
    else
      && v in g && path[0] < |g[v].refs|
      && exists mid ::
           TakenAlong(g, g[v].refs[path[0]].source, path[1..], s, mid) && Takes(g[v].refs[path[0]].scopeMap, mid, t)
  }

  /** The row of a valid map for a scope gives its new name, whatever other rows there are. */
  lemma {:induction false} MapTakesItsRow(m: ScopeMap, j: nat)
    requires ValidScopeMap(m) && j < |m|
    ensures MapScope(m, m[j].source) == m[j].target
    decreases j
  {
    if j > 0 {
      assert m[0].source < m[j].source && m[1..][j - 1] == m[j];
      TailIsValid(m);
      MapTakesItsRow(m[1..], j - 1);
    }
  }

  lemma {:induction false} TailIsValid(m: ScopeMap)
    requires ValidScopeMap(m) && m != []
    ensures ValidScopeMap(m[1..])
  {
  }

  lemma {:induction false} RowIsUnique(m: ScopeMap, j: nat)
    requires ValidScopeMap(m) && j < |m|
    ensures forall k | 0 <= k < |m| && m[k].source == m[j].source :: k == j
  {
  }

  lemma {:induction false} TakesIsMapScope(m: ScopeMap, s: Scope, t: Scope)
    requires ValidScopeMap(m)
    ensures Takes(m, s, t) <==> t == MapScope(m, s)
  {
    if j :| 0 <= j < |m| && m[j].source == s {
      MapTakesItsRow(m, j);
      RowIsUnique(m, j);
    } else {
      MapScopeWithoutRow(m, s);
    }
  }

  ghost predicate ChainValid(chain: seq<ScopeMap>) {
    forall i | 0 <= i < |chain| :: ValidScopeMap(chain[i])
  }

  lemma {:induction false} TakesAllIsEffective(chain: seq<ScopeMap>, s: Scope, t: Scope)
    requires ChainValid(chain)
    ensures TakesAll(chain, s, t) <==> t == Effective(chain, s)
    decreases |chain|
  {
    hide ValidScopeMap, Takes, MapScope;
    if chain != [] {
      var init, last := chain[..|chain| - 1], chain[|chain| - 1];
      forall mid ensures TakesAll(init, s, mid) <==> mid == Effective(init, s) {
        TakesAllIsEffective(init, s, mid);
      }
      TakesIsMapScope(last, Effective(init, s), t);
    }
  }

  /** The chain that a path demands takes every scope of its table where the maps of the path take it. */
  lemma {:induction false} DemandedScopes(g: Graph, v: ViewId, path: Path, target: ViewId, node: nat)
    requires RowAt(g, v, path, target, false).Some? && ManifestsOk(g, MetDown(g, v, path))
    requires target in g && node < |g[target].table.nodes| && g[target].table.nodes[node].Some?
    ensures var chain, s := RowAt(g, v, path, target, false).value.chain, g[target].table.nodes[node].value;
      ChainValid(chain) && forall t :: TakenAlong(g, v, path, s, t) <==> t == Effective(chain, s)
    decreases |path|
  {
    hide ManifestsOk, ValidScopeMap, MapScope, Takes, Effective, ValidManifest, MetDown, Readable;
    var s := g[target].table.nodes[node].value;
    if |path| == 1 {
      NoMaps(s);
    } else {
      var r := Refs(g, v)[path[0]];
      var inner := RowAt(g, r.source, path[1..], target, false).value;
      MetBelow(g, v, path);
      DemandedScopes(g, r.source, path[1..], target, node);
      MapIsValid(g, v, path[0]);
      PrunedChainIsExact(TableOf(g, target), inner.chain, r.scopeMap, node);
      forall t ensures TakenAlong(g, v, path, s, t) <==> t == MapScope(r.scopeMap, Effective(inner.chain, s)) {
        TakesIsMapScope(r.scopeMap, Effective(inner.chain, s), t);
      }
    }
  }

  lemma {:induction false} NoMaps(s: Scope)
    ensures Effective([], s) == s
  {
  }

  lemma {:induction false} MapIsValid(g: Graph, v: ViewId, i: nat)
    requires ValidManifest(g, v) && i < |Refs(g, v)|
    ensures ValidScopeMap(Refs(g, v)[i].scopeMap)
  {
  }

  /**
   In every plan the maps kept for a row take each scope of its table exactly where the maps
   of the references on the row's path take it, and they take it somewhere.
   */
  lemma {:induction false} PlannedScopes(task: LeafResolver.Task, result: LeafResolver.PlanResult, i: nat, node: nat)
    requires LeafResolver.AllJustified(task, result) && result.Planned? && i < |result.rows|
    requires var v := result.rows[i].view;
      v in task.graph && node < |task.graph[v].table.nodes| && task.graph[v].table.nodes[node].Some?
    ensures var row := result.rows[i];
      var s := task.graph[row.view].table.nodes[node].value;
      && (forall t :: TakesAll(row.chain, s, t) <==> TakenAlong(task.graph, task.root, row.path, s, t))
      && exists t :: TakesAll(row.chain, s, t)
  {
    hide LeafResolver.Admitted, Unfolds, Paths, PathSet, Rows, RowAt, TakesAll, TakenAlong, Effective, ManifestsOk, MetDown;
    var g, row := task.graph, result.rows[i];
    var s := g[row.view].table.nodes[node].value;
    assert LeafResolver.Grounded(task, result);
    var t :| UnfoldingOf(g, Key(task.root, false), t);
    var rows := PlannedRows(task, result, t);
    PlanIsDemanded(g, task.keepEmpty, t);
    PlanClaimsPaths(g, task.keepEmpty, t);
    PathIsListed(rows, i);
    LeafMeets(g, task.keepEmpty, t, row.path);
    FewerManifests(g, t, MetDown(g, task.root, row.path));
    DemandedScopes(g, task.root, row.path, row.view, node);
    forall u ensures TakesAll(row.chain, s, u) <==> u == Effective(row.chain, s) {
      TakesAllIsEffective(row.chain, s, u);
    }
    assert TakesAll(row.chain, s, Effective(row.chain, s));
  }

  lemma {:induction false} FewerManifests(g: Graph, t: Tree, views: set<ViewId>)
    requires AllManifestsValid(g, t) && views <= Views(t)
    ensures ManifestsOk(g, views)
  {
  }

  // ----- which maps are kept

  /** Some node of the table has, where the path stands, the scope of a row of the map. */
  ghost predicate Consumes(g: Graph, v: ViewId, path: Path, table: Table, m: ScopeMap) {
    exists k, j, s | 0 <= k < |table.nodes| && 0 <= j < |m| && table.nodes[k].Some? ::
      TakenAlong(g, v, path, table.nodes[k].value, s) && m[j].source == s
  }

  /** The maps on the path that consume the name of some node, the one next to the end first. */
  ghost predicate ChainAlong(g: Graph, v: ViewId, path: Path, table: Table, chain: seq<ScopeMap>)
    decreases |path|
  {
    if |path| <= 1 then chain == []
    else
      && v in g && path[0] < |g[v].refs|
      && var r := g[v].refs[path[0]];
      && exists inner ::
           && ChainAlong(g, r.source, path[1..], table, inner)
           && chain == if Consumes(g, r.source, path[1..], table, r.scopeMap) then inner + [r.scopeMap] else inner
  }

  lemma {:induction false} ConsumesIffApplies(g: Graph, v: ViewId, path: Path, target: ViewId, m: ScopeMap)
    requires RowAt(g, v, path, target, false).Some? && ManifestsOk(g, MetDown(g, v, path)) && target in g
    ensures Consumes(g, v, path, g[target].table, m) <==>
      ScopeMapApplies(g[target].table, RowAt(g, v, path, target, false).value.chain, m)
  {
    hide RowAt, ManifestsOk, MetDown, TakenAlong, Effective, ChainValid;
    var table, chain := g[target].table, RowAt(g, v, path, target, false).value.chain;
    forall k, s | 0 <= k < |table.nodes| && table.nodes[k].Some?
      ensures TakenAlong(g, v, path, table.nodes[k].value, s) <==> s == Effective(chain, table.nodes[k].value)
    {
      DemandedScopes(g, v, path, target, k);
    }
    if ScopeMapApplies(table, chain, m) {
      var k, j :| 0 <= k < |table.nodes| && 0 <= j < |m|
        && table.nodes[k].Some? && m[j].source == Effective(chain, table.nodes[k].value);
      assert TakenAlong(g, v, path, table.nodes[k].value, m[j].source);
    }
    if Consumes(g, v, path, table, m) {
      var k, j, s :| 0 <= k < |table.nodes| && 0 <= j < |m| && table.nodes[k].Some?
        && TakenAlong(g, v, path, table.nodes[k].value, s) && m[j].source == s;
      assert m[j].source == Effective(chain, table.nodes[k].value);
    }
  }

  /** The chain that a path demands holds exactly those maps. */
  lemma {:induction false} DemandedChainIsKept(g: Graph, v: ViewId, path: Path, target: ViewId)
    requires RowAt(g, v, path, target, false).Some? && ManifestsOk(g, MetDown(g, v, path)) && target in g
    ensures ChainAlong(g, v, path, g[target].table, RowAt(g, v, path, target, false).value.chain)
    decreases |path|
  {
    hide ManifestsOk, MetDown, Consumes, ScopeMapApplies, Readable, ValidManifest;
    if |path| > 1 {
      var r := Refs(g, v)[path[0]];
      MetBelow(g, v, path);
      DemandedChainIsKept(g, r.source, path[1..], target);
      ConsumesIffApplies(g, r.source, path[1..], target, r.scopeMap);
      NothingConsumesNothing(g, r.source, path[1..], g[target].table);
    }
  }

  lemma {:induction false} NothingConsumesNothing(g: Graph, v: ViewId, path: Path, table: Table)
    ensures !Consumes(g, v, path, table, [])
  {
  }

  /** A planned row keeps a map of its path exactly when some node's name has a row in it. */
  lemma {:induction false} PlannedChain(task: LeafResolver.Task, result: LeafResolver.PlanResult, i: nat)
    requires LeafResolver.AllJustified(task, result) && result.Planned? && i < |result.rows|
    ensures var row := result.rows[i];
      row.view in task.graph && ChainAlong(task.graph, task.root, row.path, task.graph[row.view].table, row.chain)
  {
    hide LeafResolver.Admitted, Unfolds, Paths, PathSet, Rows, RowAt, ChainAlong, ManifestsOk, MetDown, EndView;
    var g, row := task.graph, result.rows[i];
    assert LeafResolver.Grounded(task, result);
    var t :| UnfoldingOf(g, Key(task.root, false), t);
    var rows := PlannedRows(task, result, t);
    PlanIsDemanded(g, task.keepEmpty, t);
    PlanClaimsPaths(g, task.keepEmpty, t);
    PathIsListed(rows, i);
    LeafMeets(g, task.keepEmpty, t, row.path);
    FewerManifests(g, t, MetDown(g, task.root, row.path));
    PathsLeadToLeaves(g, task.keepEmpty, t, row.path);
    DemandedEnd(g, task.root, row.path, row.view);
    DemandedChainIsKept(g, task.root, row.path, row.view);
  }

  // ----- two maps on one path

  const RENAMED: Graph := map[
    0 := View(0, Composite, [Reference(1, 0, All, [ScopeRow(2, 3)], 1), Reference(3, 0, All, [], 2)], false, Table([], []), 0),
    1 := View(0, Overlay, [Reference(2, 0, All, [ScopeRow(1, 2), ScopeRow(5, 6)], 0)], false, Table([], []), 0),
    2 := View(0, Direct, [], true, Table([Some(1)], [[0]]), 0),
    3 := View(0, Direct, [], true, Table([None], [[0]]), 0)]

  /** A map on the way applies to names that a map below it gave: both are kept, and scope 1 is called 3. */
  lemma {:induction false} TwoMapsRename()
    ensures forall v | v in RENAMED :: ValidView(RENAMED, v)
    ensures var row := RowAt(RENAMED, 0, [0, 0, 0], 2, false);
      && row == Some(Row(2, None, None, [[ScopeRow(1, 2), ScopeRow(5, 6)], [ScopeRow(2, 3)]], [0, 0, 0]))
      && forall t :: TakesAll(row.value.chain, 1, t) <==> t == 3
  {
    hide ValidView;
    RenamedIsValid();
    var g, none: seq<ScopeMap> := RENAMED, [];
    var low, high := [ScopeRow(1, 2), ScopeRow(5, 6)], [ScopeRow(2, 3)];
    assert [0, 0, 0][1..] == [0, 0] && [0, 0][1..] == [0];
    assert RowAt(g, 2, [0], 2, false) == Some(Row(2, None, None, [], [0]));
    MapTakesItsRow(low, 0);
    MapTakesItsRow(high, 0);
    NoMaps(1);
    assert [low][..0] == none && [low, high][..1] == [low];
    assert Effective([low], 1) == 2 && Effective([low, high], 1) == 3;
    var table := g[2].table;
    assert table.nodes[0] == Some(1) && low[0].source == 1 && high[0].source == 2;
    assert ScopeMapApplies(table, none, low) && ScopeMapApplies(table, [low], high);
    assert none + [low] == [low] && [low] + [high] == [low, high];
    assert RowAt(g, 1, [0, 0], 2, false) == Some(Row(2, None, None, [low], [0, 0]));
    forall t ensures TakesAll([low, high], 1, t) <==> t == 3 {
      TakesAllIsEffective([low, high], 1, t);
    }
  }

  lemma {:induction false} RenamedIsValid()
    ensures forall v | v in RENAMED :: ValidView(RENAMED, v)
  {
    forall v | v in RENAMED ensures ValidView(RENAMED, v) {
      assert v == 0 || v == 1 || v == 2 || v == 3;
    }
  }

  // ----- limits

  /** The overlay containers that a path of an unfolding meets, both ends included. */
  function OverlaysMet(g: Graph, t: Tree, p: seq<nat>): nat
    requires PathIn(t, p)
    decreases t
  {
    (if t.view in g && g[t.view].kind == Overlay then 1 else 0)
    + if p == [] then 0 else OverlaysMet(g, t.children[p[0]], p[1..])
  }

  lemma {:induction false} OverlaysAreMet(g: Graph, t: Tree, p: seq<nat>)
    requires PathIn(t, p)
    ensures OverlaysAlong(g, t, p) == OverlaysMet(g, t, p)
    decreases t
  {
    if p != [] {
      OverlaysAreMet(g, t.children[p[0]], p[1..]);
    }
  }

  lemma {:induction false} WorstPathMeets(g: Graph, t: Tree, k: nat)
    ensures Span(g, t) > k <==> exists p :: PathIn(t, p) && OverlaysMet(g, t, p) > k
  {
    SpanIsWorstPath(g, t, k);
    forall p | PathIn(t, p) ensures OverlaysAlong(g, t, p) == OverlaysMet(g, t, p) {
      OverlaysAreMet(g, t, p);
    }
  }

  /** A published limit is the largest value allowed, and one that is not published allows everything. */
  lemma {:induction false} LimitsAreInclusive(task: LeafResolver.Task, result: LeafResolver.PlanResult, k: nat)
    requires LeafResolver.AllJustified(task, result)
    ensures result.Planned? ==>
      && (task.limits.work == Some(k) ==> WorkOf(task.graph, result.containers) <= k)
      && (task.limits.members == Some(k) ==> |result.rows| <= k)
      && (task.limits.depth == Some(k) ==> forall t, p |
            UnfoldingOf(task.graph, Key(task.root, false), t) && PathIn(t, p) :: OverlaysMet(task.graph, t, p) <= k)
    ensures result == LeafResolver.Rejected(LeafResolver.WorkLimit) ==>
      task.limits.work.Some? && exists part ::
        PartOf(task.graph, task.root, part) && WorkOf(task.graph, Views(part)) > task.limits.work.value
    ensures result == LeafResolver.Rejected(LeafResolver.DepthLimit) ==>
      task.limits.depth.Some? && exists part, p ::
        PartOf(task.graph, task.root, part) && PathIn(part, p)
        && OverlaysMet(task.graph, part, p) > task.limits.depth.value
    ensures result == LeafResolver.Rejected(LeafResolver.MemberLimit) ==>
      task.limits.members.Some? && exists part ::
        PartOf(task.graph, task.root, part) && Leaves(task.graph, task.keepEmpty, part) > task.limits.members.value
  {
    hide Unfolds, Rows, Leaves, Span, WorkOf, Part, ValidView, OverlaysMet, PathIn, Keys;
    var g := task.graph;
    if result.Planned? {
      forall t, p | UnfoldingOf(g, Key(task.root, false), t) && PathIn(t, p) && task.limits.depth == Some(k)
        ensures OverlaysMet(g, t, p) <= k
      {
        assert LeafResolver.Justified(g, task.keepEmpty, task.limits, t, result);
        WorstPathMeets(g, t, k);
      }
      var t :| UnfoldingOf(g, Key(task.root, false), t);
      var rows := PlannedRows(task, result, t);
      assert LeafResolver.Justified(g, task.keepEmpty, task.limits, t, result);
      RowsPerLeaf(g, task.keepEmpty, t);
    } else if result.Rejected? {
      var part :| PartOf(g, task.root, part) && LeafResolver.Shown(task, result.reason, part);
      if result.reason.DepthLimit? {
        WorstPathMeets(g, part, task.limits.depth.value);
      }
    }
  }

  // ----- rows of CLOSURE and ROOT that are paired

  lemma {:induction false} ViewAtIsEnd(g: Graph, v: ViewId, path: Path, n: nat)
    requires n < |path| && ViewAt(g, v, path, n).Some?
    ensures EndView(g, v, path[..n + 1]) == ViewAt(g, v, path, n).value
    decreases n
  {
    hide Readable;
    if n > 0 {
      ViewAtFront(g, v, path, n - 1);
      ViewAtIsEnd(g, Refs(g, v)[path[0]].source, path[1..], n - 1);
      assert path[1..][..n] == path[..n + 1][1..];
    } else {
      assert |path[..1]| == 1;
    }
  }

  /** A row may end at a view's own segment, or, in ROOT, at an empty container that has none. */
  lemma {:induction false} RowEnds(g: Graph, v: ViewId, segment: nat, target: ViewId, inRoot: bool)
    ensures EndsAt(g, v, segment, target, inRoot) <==>
      && v in g && v == target && segment == |g[v].refs|
      && (g[v].local ||
          (inRoot && (g[v].kind == Overlay || g[v].kind == Composite)
           && |g[v].table.nodes| == 0 && |g[v].table.roots| == 0))
  {
  }

  /**
   Paired rows have one path and one owner, each is bound to the view its path leads to, and on
   the way both take references of the same kind, source owner and, between members, token.
   */
  lemma {:induction false} PairedRows(g: Graph, closure: ViewId, root: ViewId, closureRow: Row, rootRow: Row, k: nat)
    requires PathsPaired(g, closure, root, closureRow, rootRow)
    ensures var path := closureRow.path;
      && path != [] && rootRow.path == path
      && EndView(g, closure, path) == closureRow.view && EndView(g, root, path) == rootRow.view
      && closureRow.view in g && path[|path| - 1] <= |g[closureRow.view].refs|
      && (path[|path| - 1] == |g[closureRow.view].refs| ==> g[closureRow.view].local)
      && rootRow.view in g && g[closureRow.view].owner == g[rootRow.view].owner
    ensures k + 1 < |closureRow.path| ==>
      var c, r := EndView(g, closure, closureRow.path[..k + 1]), EndView(g, root, closureRow.path[..k + 1]);
      && c in g && r in g && closureRow.path[k] < |g[c].refs| && closureRow.path[k] < |g[r].refs|
      && var a, b := g[c].refs[closureRow.path[k]], g[r].refs[closureRow.path[k]];
      && a.owner == b.owner && (g[c].kind.Overlay? <==> g[r].kind.Overlay?)
      && (!g[c].kind.Overlay? ==> a.token == b.token)
  {
    hide ViewAt, EndView;
    var path := closureRow.path;
    var last := |path| - 1;
    ViewAtIsEnd(g, closure, path, last);
    ViewAtIsEnd(g, root, path, last);
    assert path[..last + 1] == path;
    if k < last {
      ViewAtIsEnd(g, closure, path, k);
      ViewAtIsEnd(g, root, path, k);
    }
  }
}
