/** A ROOT plan that is made for a CLOSURE plan and that the native validator refuses. */
module RefusedRoot {
  import opened Wrappers
  import opened Manifests
  import opened Unfoldings
  import opened LeafPlans
  import opened LeafPaths
  import opened Traversal
  import PathEnumerator
  import PlanTheorems
  import opened PlanChecker
  import opened RootPlan
  import opened RootPairing
  import opened RootTheorems

  const ONE_ROOT: Table := Table([None], [[0]])
  const NOTHING: Table := Table([], [])

  /**
   ROOT view 0 includes a root of view 1, whose base leads back to view 1 through view 2;
   CLOSURE views 10, 11, 12 and 14 have the same references, but no view twice.
   */
  const GOES_ON: Graph := map[
    0 := View(0, Composite, [PlanTheorems.Ref(1, Include([1]), 1), PlanTheorems.Ref(3, All, 2)], false, NOTHING, 0),
    1 := View(0, Overlay, [PlanTheorems.Ref(2, All, 0)], true, ONE_ROOT, 0),
    2 := View(0, Composite, [PlanTheorems.Ref(1, All, 1), PlanTheorems.Ref(3, All, 2)], false, NOTHING, 0),
    3 := View(0, Direct, [], true, ONE_ROOT, 0),
    4 := View(0, Direct, [], true, NOTHING, 0),
    10 := View(0, Composite, [PlanTheorems.Ref(11, All, 1), PlanTheorems.Ref(3, All, 2)], false, NOTHING, 0),
    11 := View(0, Overlay, [PlanTheorems.Ref(12, All, 0)], true, ONE_ROOT, 0),
    12 := View(0, Composite, [PlanTheorems.Ref(14, All, 1), PlanTheorems.Ref(4, All, 2)], false, NOTHING, 0),
    14 := View(0, Overlay, [PlanTheorems.Ref(4, All, 0)], true, ONE_ROOT, 0)]

  const GOING_ON: Manifest := Manifest(GOES_ON, 10, 0, Limits(None, None, None))

  const DEEP: Path := [0, 0, 0, 1]
  const CLOSURE_ROWS: seq<Row> :=
    [Row(14, None, None, [], DEEP), Row(11, None, None, [], [0, 1]), Row(3, None, None, [], [1, 0])]
  const ROOT_ROWS: seq<Row> :=
    [Row(1, Some([1]), None, [], DEEP), Row(1, Some([1]), None, [], [0, 1]), Row(3, None, None, [], [1, 0])]

  const INCLUDED: Tree := Tree(1, true, [])
  const OTHER: Tree := Tree(3, false, [])
  const ROOT_TREE: Tree := Tree(0, false, [INCLUDED, OTHER])
  const BOTTOM: Tree := Tree(4, false, [])
  const CLOSURE_14: Tree := Tree(14, false, [BOTTOM])
  const CLOSURE_12: Tree := Tree(12, false, [CLOSURE_14, BOTTOM])
  const CLOSURE_11: Tree := Tree(11, false, [CLOSURE_12])
  const CLOSURE_TREE: Tree := Tree(10, false, [CLOSURE_11, OTHER])

  lemma {:induction false} GoesOnIsValid(v: ViewId)
    requires v in GOES_ON
    ensures ValidView(GOES_ON, v)
  {
    if v < 10 {
      RootSideIsValid(v);
    } else {
      assert v == 10 || v == 11 || v == 12 || v == 14;
    }
  }

  lemma {:induction false} RootSideIsValid(v: ViewId)
    requires v in GOES_ON && v < 10
    ensures ValidView(GOES_ON, v)
  {
    assert v == 0 || v == 1 || v == 2 || v == 3 || v == 4;
  }

  lemma {:induction false} ClosureUnfolds()
    ensures UnfoldingOf(GOES_ON, Key(10, false), CLOSURE_TREE)
    ensures UnfoldingOf(GOES_ON, Key(0, false), ROOT_TREE)
  {
    var g := GOES_ON;
    assert Unfolds(g, INCLUDED) && Unfolds(g, OTHER) && Unfolds(g, BOTTOM);
    assert KidsUnfold(g, 14, CLOSURE_14.children);
    assert KidsUnfold(g, 12, CLOSURE_12.children);
    assert KidsUnfold(g, 11, CLOSURE_11.children);
    assert KidsUnfold(g, 10, CLOSURE_TREE.children);
    assert KidsUnfold(g, 0, ROOT_TREE.children);
  }

  lemma {:induction false} UnfoldingIsValid(t: Tree)
    requires Unfolds(GOES_ON, t)
    ensures AllManifestsValid(GOES_ON, t)
  {
    hide ValidView, ValidManifest;
    forall v | v in Views(t) ensures ValidManifest(GOES_ON, v) {
      var k :| k in Keys(t) && k.view == v;
      var s := KeyHasUnfolding(GOES_ON, t, k);
      GoesOnIsValid(v);
      ManifestPart(v);
    }
  }

  lemma {:induction false} ManifestPart(v: ViewId)
    requires ValidView(GOES_ON, v)
    ensures ValidManifest(GOES_ON, v)
  {
  }

  lemma {:induction false} PlainReference(g: Graph, r: Reference, segment: nat, rows: seq<Row>)
    requires r.posting.All? && r.scopeMap == []
    ensures ApplyReference(g, r, segment, rows) == Some(PrependSegment(rows, segment))
  {
    assert ApplyScopeMap(g, rows, []) == rows;
  }

  /** The rows of a view whose references are plain, with one of them or two. */
  lemma {:induction false} OnePlainKid(g: Graph, v: ViewId, a: Tree, rows: seq<Row>)
    requires KidsUnfold(g, v, [a]) && Refs(g, v)[0].posting.All? && Refs(g, v)[0].scopeMap == []
    requires Unfolds(g, a) && Rows(g, false, a) == Some(rows)
    ensures KidsRows(g, false, v, [a]) == Some(PrependSegment(rows, 0))
  {
    hide Rows, ApplyReference, PrependSegment, Unfolds;
    PlainReference(g, Refs(g, v)[0], 0, rows);
    assert [a][..0] == [] && KidsRows(g, false, v, []) == Some([]);
    assert [] + PrependSegment(rows, 0) == PrependSegment(rows, 0);
  }

  lemma {:induction false} TwoPlainKids(g: Graph, v: ViewId, a: Tree, b: Tree, rows: seq<Row>, more: seq<Row>)
    requires KidsUnfold(g, v, [a]) && KidsUnfold(g, v, [a, b]) && KidsRows(g, false, v, [a]) == Some(rows)
    requires Refs(g, v)[1].posting.All? && Refs(g, v)[1].scopeMap == []
    requires Unfolds(g, b) && Rows(g, false, b) == Some(more)
    ensures KidsRows(g, false, v, [a, b]) == Some(rows + PrependSegment(more, 1))
  {
    hide Rows, ApplyReference, PrependSegment, Unfolds;
    PlainReference(g, Refs(g, v)[1], 1, more);
    assert [a, b][..1] == [a];
  }

  lemma {:induction false} RowsOf(g: Graph, t: Tree, kids: seq<Row>)
    requires Unfolds(g, t) && KidsRows(g, false, t.view, t.children) == Some(kids)
    ensures Rows(g, false, t) == Some(kids + if HasLocalLeaf(g, false, t.view) then [LocalRow(g, t.view)] else [])
  {
  }

  lemma {:induction false} RowsAtBottom()
    ensures Unfolds(GOES_ON, BOTTOM) && Rows(GOES_ON, false, BOTTOM) == Some([])
    ensures Unfolds(GOES_ON, OTHER) && Rows(GOES_ON, false, OTHER) == Some([Row(3, None, None, [], [0])])
  {
    var g := GOES_ON;
    RowsOf(g, BOTTOM, []);
    RowsOf(g, OTHER, []);
    var none: seq<Row> := [];
    assert !HasLocalLeaf(g, false, 4) && none + none == none;
    assert HasLocalLeaf(g, false, 3) && none + [LocalRow(g, 3)] == [LocalRow(g, 3)];
  }

  lemma {:induction false} ClosurePlanOf12()
    ensures Unfolds(GOES_ON, CLOSURE_12)
    ensures Rows(GOES_ON, false, CLOSURE_12) == Some([Row(14, None, None, [], [0, 1])])
  {
    hide Rows, KidsRows, PrependSegment;
    var g := GOES_ON;
    ClosureUnfolds();
    RowsAtBottom();
    OnePlainKid(g, 14, BOTTOM, []);
    assert PrependSegment([], 0) == [] && PrependSegment([], 1) == [];
    RowsOf(g, CLOSURE_14, []);
    var deep := [Row(14, None, None, [], [1])];
    assert [] + deep == deep;
    OnePlainKid(g, 12, CLOSURE_14, deep);
    TwoPlainKids(g, 12, CLOSURE_14, BOTTOM, PrependSegment(deep, 0), []);
    assert PrependSegment(deep, 0) == [Row(14, None, None, [], [0] + [1])];
    RowsOf(g, CLOSURE_12, PrependSegment(deep, 0) + []);
    assert [0] + [1] == [0, 1];
    assert PrependSegment(deep, 0) + [] + [] == [Row(14, None, None, [], [0, 1])];
  }

  lemma {:induction false} ClosurePlanOf11()
    ensures Unfolds(GOES_ON, CLOSURE_11)
    ensures Rows(GOES_ON, false, CLOSURE_11)
      == Some([Row(14, None, None, [], [0, 0, 1]), Row(11, None, None, [], [1])])
  {
    hide Rows, KidsRows, PrependSegment;
    var g := GOES_ON;
    ClosureUnfolds();
    ClosurePlanOf12();
    var deep := [Row(14, None, None, [], [0, 1])];
    OnePlainKid(g, 11, CLOSURE_12, deep);
    assert PrependSegment(deep, 0) == [Row(14, None, None, [], [0] + [0, 1])];
    RowsOf(g, CLOSURE_11, PrependSegment(deep, 0));
    assert [0] + [0, 1] == [0, 0, 1] && LocalRow(g, 11) == Row(11, None, None, [], [1]);
    assert HasLocalLeaf(g, false, 11);
    assert PrependSegment(deep, 0) + [LocalRow(g, 11)]
      == [Row(14, None, None, [], [0, 0, 1]), Row(11, None, None, [], [1])];
  }

  lemma {:induction false} ClosurePlanIs()
    ensures Unfolds(GOES_ON, CLOSURE_TREE) && Rows(GOES_ON, false, CLOSURE_TREE) == Some(CLOSURE_ROWS)
  {
    hide Rows, KidsRows, PrependSegment;
    var g := GOES_ON;
    ClosureUnfolds();
    RowsAtBottom();
    ClosurePlanOf11();
    var deep := [Row(14, None, None, [], [0, 0, 1]), Row(11, None, None, [], [1])];
    var other := [Row(3, None, None, [], [0])];
    OnePlainKid(g, 10, CLOSURE_11, deep);
    TwoPlainKids(g, 10, CLOSURE_11, OTHER, PrependSegment(deep, 0), other);
    assert PrependSegment(deep, 0) == [Row(14, None, None, [], [0] + [0, 0, 1]), Row(11, None, None, [], [0] + [1])];
    assert PrependSegment(other, 1) == [Row(3, None, None, [], [1] + [0])];
    RowsOf(g, CLOSURE_TREE, PrependSegment(deep, 0) + PrependSegment(other, 1));
    assert [0] + [0, 0, 1] == DEEP && [0] + [1] == [0, 1] && [1] + [0] == [1, 0];
    assert PrependSegment(deep, 0) + PrependSegment(other, 1) + [] == CLOSURE_ROWS;
  }

  lemma {:induction false} MetInGraph(g: Graph, v: ViewId, path: Path)
    requires v in g && forall u, i | u in g && 0 <= i < |g[u].refs| :: g[u].refs[i].source in g
    ensures forall u | u in MetDown(g, v, path) :: u in g
    decreases |path|
  {
    if |path| > 1 && path[0] < |Refs(g, v)| {
      MetInGraph(g, Refs(g, v)[path[0]].source, path[1..]);
    }
  }

  lemma {:induction false} AllMetInGraph(m: Manifest, rows: seq<Row>)
    requires m.root in m.graph
    requires forall u, i | u in m.graph && 0 <= i < |m.graph[u].refs| :: m.graph[u].refs[i].source in m.graph
    ensures forall u | u in Met(m, rows) :: u in m.graph
  {
    if rows != [] {
      AllMetInGraph(m, rows[..|rows| - 1]);
      MetInGraph(m.graph, m.root, rows[|rows| - 1].path);
    }
  }

  lemma {:induction false} ThroughAll(g: Graph, v: ViewId, path: Path, target: ViewId, whole: Path)
    requires |path| > 1 && path[0] < |Refs(g, v)|
    requires Refs(g, v)[path[0]].posting.All? && Refs(g, v)[path[0]].scopeMap == []
    ensures SelectedAs(g, v, path, target, whole) == SelectedAs(g, Refs(g, v)[path[0]].source, path[1..], target, whole)
  {
    hide SelectedAs;
    SelectedThrough(g, v, path, target, whole);
    var inner := SelectedAs(g, Refs(g, v)[path[0]].source, path[1..], target, whole);
    if inner.Some? {
      assert ApplyScopeMap(g, [inner.value], []) == [inner.value];
    }
  }

  lemma {:induction false} ThroughInclude(g: Graph, v: ViewId, path: Path, target: ViewId, whole: Path, row: Row)
    requires |path| > 1 && path[0] < |Refs(g, v)|
    requires Refs(g, v)[path[0]].posting.Include? && Refs(g, v)[path[0]].scopeMap == []
    requires SelectedAs(g, Refs(g, v)[path[0]].source, path[1..], target, whole) == Some(row)
    requires row.view == Refs(g, v)[path[0]].source && Bare(row)
    ensures SelectedAs(g, v, path, target, whole) == Some(row.(included := Some(Refs(g, v)[path[0]].posting.ids)))
  {
    hide SelectedAs;
    SelectedThrough(g, v, path, target, whole);
    ReferenceOnOneRow(g, Refs(g, v)[path[0]], row);
  }

  lemma {:induction false} DeepPlace()
    ensures Coordinated(GOING_ON, CLOSURE_ROWS[0]) && PlaceOf(GOES_ON, 10, 0, DEEP) == Some(Place(14, 1))
  {
    var g := GOES_ON;
    assert DEEP[1..] == [0, 0, 1] && [0, 0, 1][1..] == [0, 1] && [0, 1][1..] == [1];
    assert PlaceOf(g, 14, 1, [1]) == Some(Place(14, 1));
    assert PlaceOf(g, 12, 2, [0, 1]) == Some(Place(14, 1));
    assert PlaceOf(g, 11, 1, [0, 0, 1]) == Some(Place(14, 1));
  }

  lemma {:induction false} OtherPlaces()
    ensures Coordinated(GOING_ON, CLOSURE_ROWS[1]) && PlaceOf(GOES_ON, 10, 0, [0, 1]) == Some(Place(11, 1))
    ensures Coordinated(GOING_ON, CLOSURE_ROWS[2]) && PlaceOf(GOES_ON, 10, 0, [1, 0]) == Some(Place(3, 3))
  {
    var g := GOES_ON;
    assert [0, 1][1..] == [1] && [1, 0][1..] == [0];
    assert PlaceOf(g, 11, 1, [1]) == Some(Place(11, 1)) && PlaceOf(g, 3, 3, [0]) == Some(Place(3, 3));
  }

  lemma {:induction false} DeepSelected()
    ensures SelectedAs(GOES_ON, 0, DEEP, 1, DEEP) == Some(ROOT_ROWS[0])
  {
    hide SelectedAs;
    var g := GOES_ON;
    assert DEEP[1..] == [0, 0, 1] && [0, 0, 1][1..] == [0, 1] && [0, 1][1..] == [1];
    SelectedAtEnd(g, 1, [1], 1, DEEP);
    ThroughAll(g, 2, [0, 1], 1, DEEP);
    ThroughAll(g, 1, [0, 0, 1], 1, DEEP);
    ThroughInclude(g, 0, DEEP, 1, DEEP, Row(1, None, None, [], DEEP));
  }

  lemma {:induction false} OthersSelected()
    ensures SelectedAs(GOES_ON, 0, [0, 1], 1, [0, 1]) == Some(ROOT_ROWS[1])
    ensures SelectedAs(GOES_ON, 0, [1, 0], 3, [1, 0]) == Some(ROOT_ROWS[2])
  {
    hide SelectedAs;
    var g := GOES_ON;
    assert [0, 1][1..] == [1] && [1, 0][1..] == [0];
    SelectedAtEnd(g, 1, [1], 1, [0, 1]);
    ThroughInclude(g, 0, [0, 1], 1, [0, 1], Row(1, None, None, [], [0, 1]));
    SelectedAtEnd(g, 3, [0], 3, [1, 0]);
    ThroughAll(g, 0, [1, 0], 3, [1, 0]);
  }

  lemma {:induction false} RootRowIs(m: Manifest, closureRow: Row, target: ViewId)
    requires Coordinated(m, closureRow)
    requires PlaceOf(m.graph, m.closure, m.root, closureRow.path).value.root == target
    ensures RootRow(m, closureRow) == SelectedAs(m.graph, m.root, closureRow.path, target, closureRow.path)
  {
  }

  lemma {:induction false} RowsAreMade()
    ensures forall i | 0 <= i < 3 ::
      Coordinated(GOING_ON, CLOSURE_ROWS[i]) && RootRow(GOING_ON, CLOSURE_ROWS[i]) == Some(ROOT_ROWS[i])
  {
    hide SelectedAs, PlaceOf, Coordinated, RootRow;
    DeepPlace();
    OtherPlaces();
    DeepSelected();
    OthersSelected();
    RootRowIs(GOING_ON, CLOSURE_ROWS[0], 1);
    RootRowIs(GOING_ON, CLOSURE_ROWS[1], 1);
    RootRowIs(GOING_ON, CLOSURE_ROWS[2], 3);
  }

  /** The maker's own conditions hold. */
  lemma {:induction false} GoingOnIsMade()
    ensures Pairable(GOING_ON, CLOSURE_ROWS) && PairsRows(GOING_ON, CLOSURE_ROWS, ROOT_ROWS)
  {
    hide Coordinated, RootRow, Met, ValidView, OverlaysDown;
    RowsAreMade();
    AllMetInGraph(GOING_ON, CLOSURE_ROWS);
    forall v | v in Met(GOING_ON, CLOSURE_ROWS) ensures ValidView(GOES_ON, v) {
      GoesOnIsValid(v);
    }
  }

  lemma {:induction false} RootTreeFacts()
    ensures NoRepeat(ROOT_TREE, {}) && Leaves(GOES_ON, false, ROOT_TREE) == 2
    ensures PathSet(Paths(GOES_ON, false, ROOT_TREE)) == {[0, 1], [1, 0]}
  {
    var g := GOES_ON;
    assert [INCLUDED, OTHER][..1] == [INCLUDED] && [INCLUDED][..0] == [];
    assert Leaves(g, false, INCLUDED) == 1 && Leaves(g, false, OTHER) == 1;
    assert KidsLeaves(g, false, [INCLUDED]) == 1;
    RootTreePaths();
  }

  lemma {:induction false} RootTreePaths()
    ensures PathSet(Paths(GOES_ON, false, ROOT_TREE)) == {[0, 1], [1, 0]}
  {
    hide Prefixed;
    var g := GOES_ON;
    assert [INCLUDED, OTHER][..1] == [INCLUDED] && [INCLUDED][..0] == [];
    assert Paths(g, false, INCLUDED) == [[1]] && Paths(g, false, OTHER) == [[0]];
    assert KidsPaths(g, false, []) == [];
    assert [0] + [1] == [0, 1] && [1] + [0] == [1, 0];
    assert Prefixed(0, [[1]]) == [[0, 1]] && Prefixed(1, [[0]]) == [[1, 0]];
    var none: seq<Path> := [];
    assert none + [[0, 1]] == [[0, 1]];
    assert KidsPaths(g, false, [INCLUDED]) == [[0, 1]];
    assert KidsPaths(g, false, [INCLUDED, OTHER]) == [[0, 1], [1, 0]];
    var paths := Paths(g, false, ROOT_TREE);
    assert paths == [[0, 1], [1, 0]];
    assert paths[0] == [0, 1] && paths[1] == [1, 0];
  }

  /**
   A CLOSURE plan whose ROOT rows are made although the validator refuses them, while the
   enumeration of ROOT succeeds and every ROOT leaf is paired: without its last condition
   the theorem above is false.
   */
  lemma {:induction false} MadeAndRefused() returns (task: PathEnumerator.Task)
    ensures Unfolds(GOES_ON, CLOSURE_TREE) && Rows(GOES_ON, false, CLOSURE_TREE) == Some(CLOSURE_ROWS)
    ensures ClosurePlan(GOING_ON, CLOSURE_ROWS)
    ensures Pairable(GOING_ON, CLOSURE_ROWS) && PairsRows(GOING_ON, CLOSURE_ROWS, ROOT_ROWS)
    ensures task.graph == GOES_ON && task.root == 0 && UnfoldingOf(GOES_ON, Key(0, false), ROOT_TREE)
    ensures PathEnumerator.Enumerable(task, ROOT_TREE)
    ensures PathSet(Paths(GOES_ON, task.keepEmpty, ROOT_TREE)) <= PathSet(RowPaths(CLOSURE_ROWS))
    ensures !RootCertified(task, 10, CLOSURE_ROWS, ROOT_TREE, ROOT_ROWS)
  {
    hide Walk, NoRepeat, ClosurePlan, Pairable, PairsRows, RootCertified, Span, WorkOf, Leaves, Paths, Rows, Unfolds,
      Keys, ValidManifest;
    var g, t := GOES_ON, ROOT_TREE;
    task := PathEnumerator.Task(g, 0, false, PathEnumerator.Bounds(WorkOf(g, Views(t)), Span(g, t), 3));
    ClosureUnfolds();
    ClosurePlanIs();
    UnfoldingIsValid(CLOSURE_TREE);
    PlanIsClosurePlan(GOING_ON, false, CLOSURE_TREE);
    GoingOnIsMade();
    RootTreeFacts();
    WalkWithoutRepeats(t, {}, {}, true);
    RootNodesAreValid();
    PathIsListed(CLOSURE_ROWS, 1);
    PathIsListed(CLOSURE_ROWS, 2);
    MadeRowsPassIff(GOING_ON, task, CLOSURE_ROWS, ROOT_ROWS, t);
    assert !IncludesAreLast(g, 0, DEEP);
    assert CLOSURE_ROWS[0].path == DEEP;
  }

  lemma {:induction false} RootNodesAreValid()
    ensures PathEnumerator.AllValidNodes(GOES_ON, ROOT_TREE)
  {
    hide ValidManifest, ValidView;
    ClosureUnfolds();
    UnfoldingIsValid(ROOT_TREE);
    assert forall v | v in GOES_ON :: EmptyWithoutLocal(GOES_ON, v);
    forall v | v in Views(ROOT_TREE) ensures v in GOES_ON {
      var k :| k in Keys(ROOT_TREE) && k.view == v;
      var s := KeyHasUnfolding(GOES_ON, ROOT_TREE, k);
    }
  }
}
