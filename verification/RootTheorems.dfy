/** What the maker of ROOT rows and their native validator say about each other. */
module RootTheorems {
  import opened Wrappers
  import opened Manifests
  import opened Unfoldings
  import opened LeafPlans
  import opened LeafPaths
  import opened PlanMeaning
  import PathEnumerator
  import opened PlanChecker
  import opened RootPlan
  import opened RootPairing

  // ----- selecting along a path is what the path demands

  lemma {:induction false} ApplyAllOutermost(g: Graph, r: Reference, rest: seq<Reference>, rows: seq<Row>)
    ensures ApplyAll(g, [r] + rest, rows) ==
      match ApplyAll(g, rest, rows)
      case None => None
      case Some(inner) => ApplyPostings(ApplyScopeMap(g, inner, r.scopeMap), r.source, r.posting)
    decreases |rest|
  {
    hide ApplyScopeMap, ApplyPostings;
    var all := [r] + rest;
    if rest == [] {
      assert all[..0] == [] && all == [r];
      var applied := ApplyPostings(ApplyScopeMap(g, rows, r.scopeMap), r.source, r.posting);
      assert applied.Some? ==> ApplyAll(g, [], applied.value) == applied;
    } else {
      var last := rest[|rest| - 1];
      assert all[..|all| - 1] == [r] + rest[..|rest| - 1] && all[|all| - 1] == last;
      var applied := ApplyPostings(ApplyScopeMap(g, rows, last.scopeMap), last.source, last.posting);
      if applied.Some? {
        ApplyAllOutermost(g, r, rest[..|rest| - 1], applied.value);
      }
    }
  }

  lemma {:induction false} PostingsAddNothing(rows: seq<Row>, source: ViewId, posting: Posting)
    ensures var kept := ApplyPostings(rows, source, posting); kept.Some? ==> |kept.value| <= |rows|
    decreases |rows|
  {
    if rows != [] && !posting.All? {
      PostingsAddNothing(rows[..|rows| - 1], source, posting);
    }
  }

  lemma {:induction false} ReferencesAddNothing(g: Graph, refs: seq<Reference>, rows: seq<Row>)
    ensures var all := ApplyAll(g, refs, rows); all.Some? ==> |all.value| <= |rows|
    decreases |refs|
  {
    if refs != [] {
      var last := refs[|refs| - 1];
      PostingsAddNothing(ApplyScopeMap(g, rows, last.scopeMap), last.source, last.posting);
      var applied := ApplyPostings(ApplyScopeMap(g, rows, last.scopeMap), last.source, last.posting);
      if applied.Some? {
        ReferencesAddNothing(g, refs[..|refs| - 1], applied.value);
      }
    }
  }

  lemma {:induction false} ReferenceOnOneRow(g: Graph, r: Reference, row: Row)
    ensures var mapped := row.(chain := ExtendChain(TableOf(g, row.view), row.chain, r.scopeMap));
      ApplyPostings(ApplyScopeMap(g, [row], r.scopeMap), r.source, r.posting) ==
        if r.posting.Include? && row.view != r.source then Some([])
        else if Selects(r, row.view) && !Bare(row) then None
        else Some([SelectedRow(mapped, r.source, r.posting)])
  {
    hide ExtendChain;
    var mapped := row.(chain := ExtendChain(TableOf(g, row.view), row.chain, r.scopeMap));
    assert ApplyScopeMap(g, [row], r.scopeMap) == [mapped];
    assert [mapped][..0] == [] && ApplyPostings([], r.source, r.posting) == Some([]);
    assert forall kept: Row :: [] + [kept] == [kept];
    assert r.posting.All? || row.view != r.source ==> SelectedRow(mapped, r.source, r.posting) == mapped;
  }

  /** INCLUDE is followed by nothing but the local segment of its source. */
  predicate IncludesAreLast(g: Graph, v: ViewId, path: Path)
    decreases |path|
  {
    |path| <= 1 || path[0] >= |Refs(g, v)| ||
    (&& (Refs(g, v)[path[0]].posting.Include? ==> |path| == 2)
     && IncludesAreLast(g, Refs(g, v)[path[0]].source, path[1..]))
  }

  /** The path leads through readable references to the end of the target. */
  predicate Leads(g: Graph, v: ViewId, path: Path, target: ViewId)
    decreases |path|
  {
    if path == [] then false
    else if |path| == 1 then EndsAt(g, v, path[0], target, true)
    else
      && path[0] < |Refs(g, v)| && Readable(g, v, Refs(g, v)[path[0]])
      && Leads(g, Refs(g, v)[path[0]].source, path[1..], target)
  }

  function SelectedAs(g: Graph, v: ViewId, path: Path, target: ViewId, whole: Path): Option<Row> {
    Only(ApplyAll(g, RefsDown(g, v, path), [Row(target, None, None, [], whole)]))
  }

  /** One more reference on the outside. */
  lemma {:induction false} SelectedThrough(g: Graph, v: ViewId, path: Path, target: ViewId, whole: Path)
    requires |path| > 1 && path[0] < |Refs(g, v)|
    ensures var r := Refs(g, v)[path[0]];
      var inner := SelectedAs(g, r.source, path[1..], target, whole);
      SelectedAs(g, v, path, target, whole) ==
        if inner.None? then None
        else Only(ApplyPostings(ApplyScopeMap(g, [inner.value], r.scopeMap), r.source, r.posting))
  {
    hide ApplyAll, ApplyScopeMap;
    var r := Refs(g, v)[path[0]];
    var row := Row(target, None, None, [], whole);
    var rest := RefsDown(g, r.source, path[1..]);
    ApplyAllOutermost(g, r, rest, [row]);
    ReferencesAddNothing(g, rest, [row]);
    var inner := ApplyAll(g, rest, [row]);
    if inner.Some? && |inner.value| == 1 {
      assert inner.value == [inner.value[0]];
    } else if inner.Some? {
      assert inner.value == [] && ApplyScopeMap(g, [], r.scopeMap) == [];
      assert ApplyPostings([], r.source, r.posting) == Some([]);
    }
  }

  /** What is selected along a path is the row the path demands, unless INCLUDE goes on to other views. */
  lemma {:induction false} SelectedIsDemanded(g: Graph, v: ViewId, path: Path, target: ViewId, whole: Path)
    requires Leads(g, v, path, target)
    ensures var row, selected := RowAt(g, v, path, target, true), SelectedAs(g, v, path, target, whole);
      && (row.Some? <==> selected.Some? && IncludesAreLast(g, v, path))
      && (row.Some? ==> selected.value == row.value.(path := whole))
    decreases |path|
  {
    hide ExtendChain, ApplyAll, ApplyScopeMap, ApplyPostings, SelectedAs;
    if |path| == 1 {
      SelectedAtEnd(g, v, path, target, whole);
    } else {
      var r := Refs(g, v)[path[0]];
      SelectedIsDemanded(g, r.source, path[1..], target, whole);
      SelectedThrough(g, v, path, target, whole);
      var inner := SelectedAs(g, r.source, path[1..], target, whole);
      if inner.Some? {
        ReferenceOnOneRow(g, r, inner.value);
      }
    }
  }

  lemma {:induction false} SelectedAtEnd(g: Graph, v: ViewId, path: Path, target: ViewId, whole: Path)
    requires |path| == 1
    ensures SelectedAs(g, v, path, target, whole) == Some(Row(target, None, None, [], whole))
  {
  }

  lemma {:induction false} DemandedLeads(g: Graph, v: ViewId, path: Path, target: ViewId, allowMissing: bool)
    requires RowAt(g, v, path, target, allowMissing).Some?
    ensures Leads(g, v, path, target)
    decreases |path|
  {
    if |path| > 1 {
      DemandedLeads(g, Refs(g, v)[path[0]].source, path[1..], target, allowMissing);
    }
  }

  // ----- following both manifests from the front and from the back

  lemma {:induction false} ViewAtFront(g: Graph, v: ViewId, path: Path, n: nat)
    requires n < |path|
    ensures ViewAt(g, v, path, n + 1) ==
      if path[0] < |Refs(g, v)| && Readable(g, v, Refs(g, v)[path[0]])
      then ViewAt(g, Refs(g, v)[path[0]].source, path[1..], n) else None
    decreases n
  {
    hide Readable;
    if n > 0 {
      ViewAtFront(g, v, path, n - 1);
      assert path[1..][n - 1] == path[n];
    } else {
      assert ViewAt(g, v, path, 0) == Some(v);
    }
  }

  lemma {:induction false} InStepFront(g: Graph, closure: ViewId, root: ViewId, path: Path, n: nat)
    requires n < |path|
    requires path[0] < |Refs(g, closure)| && Readable(g, closure, Refs(g, closure)[path[0]])
    requires path[0] < |Refs(g, root)| && Readable(g, root, Refs(g, root)[path[0]])
    ensures InStep(g, closure, root, path, n + 1) <==>
      && SameReference(g, closure, root, path[0])
      && InStep(g, Refs(g, closure)[path[0]].source, Refs(g, root)[path[0]].source, path[1..], n)
  {
    hide Readable, SameReference;
    var c, r, rest := Refs(g, closure)[path[0]].source, Refs(g, root)[path[0]].source, path[1..];
    forall i | 0 <= i < n
      ensures ViewAt(g, closure, path, i + 1) == ViewAt(g, c, rest, i)
      ensures ViewAt(g, root, path, i + 1) == ViewAt(g, r, rest, i) && rest[i] == path[i + 1]
    {
      ViewAtFront(g, closure, path, i);
      ViewAtFront(g, root, path, i);
    }
    if InStep(g, closure, root, path, n + 1) {
      assert ViewAt(g, closure, path, 0) == Some(closure) && ViewAt(g, root, path, 0) == Some(root);
      assert InStep(g, c, r, rest, n) by {
        forall i | 0 <= i < n
          ensures ViewAt(g, c, rest, i).Some? && ViewAt(g, r, rest, i).Some?
            && SameReference(g, ViewAt(g, c, rest, i).value, ViewAt(g, r, rest, i).value, rest[i])
        {
          assert ViewAt(g, closure, path, i + 1).Some?;
        }
      }
    }
    if SameReference(g, closure, root, path[0]) && InStep(g, c, r, rest, n) {
      forall i | 0 <= i < n + 1
        ensures ViewAt(g, closure, path, i).Some? && ViewAt(g, root, path, i).Some?
          && SameReference(g, ViewAt(g, closure, path, i).value, ViewAt(g, root, path, i).value, path[i])
      {
        if i > 0 {
          assert ViewAt(g, c, rest, i - 1).Some?;
        }
      }
    }
  }

  ghost predicate ManifestsOk(g: Graph, views: set<ViewId>) {
    forall v | v in views :: ValidManifest(g, v)
  }

  /** Both validators agree on one reference: only an overlay base has no token to compare. */
  lemma {:induction false} SameIsPaired(g: Graph, closure: ViewId, root: ViewId, segment: nat)
    requires ValidManifest(g, closure) && ValidManifest(g, root)
    requires segment < |Refs(g, closure)| && segment < |Refs(g, root)|
    ensures SameReference(g, closure, root, segment) <==> PairedReference(g, closure, root, segment)
  {
  }

  lemma {:induction false} MetBelow(g: Graph, v: ViewId, path: Path)
    requires |path| > 1 && path[0] < |Refs(g, v)| && ManifestsOk(g, MetDown(g, v, path))
    ensures ValidManifest(g, v) && ManifestsOk(g, MetDown(g, Refs(g, v)[path[0]].source, path[1..]))
    ensures Readable(g, v, Refs(g, v)[path[0]])
  {
  }

  /** Following from the front is being in step, and both end at the same views. */
  lemma {:induction false} FollowsIffInStep(g: Graph, closure: ViewId, root: ViewId, path: Path)
    requires path != [] && ManifestsOk(g, MetDown(g, closure, path)) && ManifestsOk(g, MetDown(g, root, path))
    ensures PlaceOf(g, closure, root, path).Some? <==> InStep(g, closure, root, path, |path| - 1)
    ensures PlaceOf(g, closure, root, path).Some? ==>
      var place := PlaceOf(g, closure, root, path).value;
      && ViewAt(g, closure, path, |path| - 1) == Some(place.closure)
      && ViewAt(g, root, path, |path| - 1) == Some(place.root)
    decreases |path|
  {
    hide ManifestsOk, ValidManifest, PairedReference, SameReference, MetDown, ViewAt, InStep, Readable;
    if |path| == 1 {
      OneSegment(g, closure, root, path);
    } else if path[0] < |Refs(g, closure)| && path[0] < |Refs(g, root)| {
      MetBelow(g, closure, path);
      MetBelow(g, root, path);
      SameIsPaired(g, closure, root, path[0]);
      InStepFront(g, closure, root, path, |path| - 2);
      ViewAtFront(g, closure, path, |path| - 2);
      ViewAtFront(g, root, path, |path| - 2);
      if PairedReference(g, closure, root, path[0]) {
        FollowsIffInStep(g, Refs(g, closure)[path[0]].source, Refs(g, root)[path[0]].source, path[1..]);
      }
    } else {
      OutOfStep(g, closure, root, path);
    }
  }

  lemma {:induction false} OneSegment(g: Graph, closure: ViewId, root: ViewId, path: Path)
    requires |path| == 1
    ensures InStep(g, closure, root, path, 0)
    ensures ViewAt(g, closure, path, 0) == Some(closure) && ViewAt(g, root, path, 0) == Some(root)
  {
  }

  lemma {:induction false} OutOfStep(g: Graph, closure: ViewId, root: ViewId, path: Path)
    requires |path| > 1 && (path[0] >= |Refs(g, closure)| || path[0] >= |Refs(g, root)|)
    ensures !InStep(g, closure, root, path, |path| - 1) && !PairedReference(g, closure, root, path[0])
  {
    assert ViewAt(g, closure, path, 0) == Some(closure) && ViewAt(g, root, path, 0) == Some(root);
  }

  /** The two languages put the condition on the last segment differently. */
  lemma {:induction false} SameEndIsPairedEnd(g: Graph, closure: ViewId, root: ViewId, segment: nat)
    requires ValidManifest(g, closure) && ValidManifest(g, root)
    requires segment == |Refs(g, closure)| && g[closure].local
    ensures SameEnd(g, closure, root, segment) <==> PairedEnd(g, closure, root, segment)
  {
  }

  lemma {:induction false} PairedEndEnds(g: Graph, closure: ViewId, root: ViewId, segment: nat)
    requires PairedEnd(g, closure, root, segment) && root in g
    ensures EndsAt(g, root, segment, root, true)
  {
  }

  lemma {:induction false} FollowedLeads(g: Graph, closure: ViewId, root: ViewId, path: Path)
    requires PlaceOf(g, closure, root, path).Some? && ManifestsOk(g, MetDown(g, root, path))
    requires var place := PlaceOf(g, closure, root, path).value;
      PairedEnd(g, place.closure, place.root, path[|path| - 1])
    ensures Leads(g, root, path, PlaceOf(g, closure, root, path).value.root)
    decreases |path|
  {
    hide PairedEnd, ValidManifest, Readable, EndsAt, MissingLocal;
    if |path| == 1 {
      RootInGraph(g, root, path);
      PairedEndEnds(g, closure, root, path[0]);
    } else {
      MetBelow(g, root, path);
      FollowedLeads(g, Refs(g, closure)[path[0]].source, Refs(g, root)[path[0]].source, path[1..]);
    }
  }

  lemma {:induction false} RootInGraph(g: Graph, root: ViewId, path: Path)
    requires ManifestsOk(g, MetDown(g, root, path))
    ensures ValidManifest(g, root) && root in g
  {
  }

  // ----- what is made passes the validator

  lemma {:induction false} ValidHasManifest(g: Graph, views: set<ViewId>)
    requires AllViewsOk(g, views)
    ensures ManifestsOk(g, views)
  {
  }

  lemma {:induction false} MetContains(m: Manifest, rows: seq<Row>, i: nat)
    requires i < |rows|
    ensures MetDown(m.graph, m.root, rows[i].path) <= Met(m, rows)
    decreases |rows|
  {
    hide MetDown;
    if i < |rows| - 1 {
      MetContains(m, rows[..|rows| - 1], i);
    }
  }

  lemma {:induction false} EndIsMet(g: Graph, v: ViewId, path: Path, target: ViewId)
    requires Leads(g, v, path, target)
    ensures target in MetDown(g, v, path)
    decreases |path|
  {
    if |path| > 1 {
      EndIsMet(g, Refs(g, v)[path[0]].source, path[1..], target);
    }
  }

  /** A path of a CLOSURE plan ends at its row's own table. */
  lemma {:induction false} FollowsToClosure(g: Graph, closure: ViewId, root: ViewId, path: Path, target: ViewId)
    requires RowAt(g, closure, path, target, false).Some? && PlaceOf(g, closure, root, path).Some?
    ensures PlaceOf(g, closure, root, path).value.closure == target
    ensures path[|path| - 1] == |Refs(g, target)| && target in g && g[target].local
    decreases |path|
  {
    if |path| > 1 {
      FollowsToClosure(g, Refs(g, closure)[path[0]].source, Refs(g, root)[path[0]].source, path[1..], target);
    }
  }

  /** What one path needs so that both sides can be read. */
  ghost predicate BothOk(m: Manifest, path: Path) {
    && ManifestsOk(m.graph, MetDown(m.graph, m.closure, path))
    && ManifestsOk(m.graph, MetDown(m.graph, m.root, path))
  }

  /** The maker's coordinates are the validator's pairing. */
  lemma {:induction false} CoordinatedIffPaired(m: Manifest, closureRow: Row, rootRow: Row)
    requires RowAt(m.graph, m.closure, closureRow.path, closureRow.view, false).Some? && BothOk(m, closureRow.path)
    ensures PathsPaired(m.graph, m.closure, m.root, closureRow, rootRow) <==>
      && Coordinated(m, closureRow) && rootRow.path == closureRow.path
      && rootRow.view == PlaceOf(m.graph, m.closure, m.root, closureRow.path).value.root
  {
    hide RowAt, PlaceOf, InStep, ViewAt, PairedEnd, SameEnd, ManifestsOk, ValidManifest, MetDown, Leads;
    var g, path := m.graph, closureRow.path;
    DemandedLeads(g, m.closure, path, closureRow.view, false);
    NoRowWithoutPath(g, m.closure, path, closureRow.view);
    FollowsIffInStep(g, m.closure, m.root, path);
    if PlaceOf(g, m.closure, m.root, path).Some? {
      FollowsToClosure(g, m.closure, m.root, path, closureRow.view);
      var place := PlaceOf(g, m.closure, m.root, path).value;
      FollowedIsMet(g, m.closure, m.root, path);
      ManifestAt(g, MetDown(g, m.closure, path), place.closure);
      ManifestAt(g, MetDown(g, m.root, path), place.root);
      SameEndIsPairedEnd(g, place.closure, place.root, path[|path| - 1]);
    }
  }

  lemma {:induction false} NoRowWithoutPath(g: Graph, v: ViewId, path: Path, target: ViewId)
    requires RowAt(g, v, path, target, false).Some?
    ensures path != []
  {
  }

  lemma {:induction false} ManifestAt(g: Graph, views: set<ViewId>, v: ViewId)
    requires ManifestsOk(g, views) && v in views
    ensures ValidManifest(g, v)
  {
  }

  lemma {:induction false} FollowedIsMet(g: Graph, closure: ViewId, root: ViewId, path: Path)
    requires PlaceOf(g, closure, root, path).Some?
    ensures var place := PlaceOf(g, closure, root, path).value;
      place.closure in MetDown(g, closure, path) && place.root in MetDown(g, root, path)
    decreases |path|
  {
    if |path| > 1 {
      FollowedIsMet(g, Refs(g, closure)[path[0]].source, Refs(g, root)[path[0]].source, path[1..]);
    }
  }

  /** The row made for a coordinated path is the row its path demands, unless INCLUDE goes on. */
  lemma {:induction false} MadeIsDemanded(m: Manifest, closureRow: Row)
    requires Coordinated(m, closureRow)
    requires ManifestsOk(m.graph, MetDown(m.graph, m.root, closureRow.path))
    ensures var g, path := m.graph, closureRow.path;
      var target := PlaceOf(g, m.closure, m.root, path).value.root;
      RowAt(g, m.root, path, target, true) == if IncludesAreLast(g, m.root, path) then RootRow(m, closureRow) else None
  {
    hide RowAt, PlaceOf, PairedEnd, ManifestsOk, MetDown, Leads, IncludesAreLast, ApplyAll, RefsDown;
    var g, path := m.graph, closureRow.path;
    var target := PlaceOf(g, m.closure, m.root, path).value.root;
    FollowedLeads(g, m.closure, m.root, path);
    SelectedIsDemanded(g, m.root, path, target, path);
    DemandedShape(g, m.root, path, target);
  }

  lemma {:induction false} DemandedShape(g: Graph, v: ViewId, path: Path, target: ViewId)
    ensures var row := RowAt(g, v, path, target, true);
      row.Some? ==> row.value.path == path && row.value.view == target
  {
  }

  // ----- CLOSURE plans

  /** Distinct paths, each with the row that it demands of CLOSURE, through views with valid manifests. */
  ghost predicate ClosurePlan(m: Manifest, closureRows: seq<Row>) {
    && |PathSet(RowPaths(closureRows))| == |closureRows|
    && RowsDemanded(m.graph, m.closure, closureRows)
    && forall i | 0 <= i < |closureRows| :: ManifestsOk(m.graph, MetDown(m.graph, m.closure, closureRows[i].path))
  }

  lemma {:induction false} LeafMeets(g: Graph, keepEmpty: bool, t: Tree, path: Path)
    requires Unfolds(g, t) && path in PathSet(Paths(g, keepEmpty, t))
    ensures MetDown(g, t.view, path) <= Views(t)
    decreases t
  {
    hide Keys;
    RootIsKey(t);
    PathSetConcat(OwnPaths(g, keepEmpty, t.view), KidsPaths(g, keepEmpty, t.children));
    if path in PathSet(KidsPaths(g, keepEmpty, t.children)) {
      var i, below := LeafOfChild(g, keepEmpty, t.view, t.children, path);
      ChildUnfolds(g, t, i);
      KeysOfChild(t, i);
      assert path[1..] == below;
      LeafMeets(g, keepEmpty, t.children[i], below);
    }
  }

  /** Every plan of CLOSURE is one. */
  lemma {:induction false} PlanIsClosurePlan(m: Manifest, keepEmpty: bool, t: Tree)
    requires UnfoldingOf(m.graph, Key(m.closure, false), t) && AllManifestsValid(m.graph, t)
    requires Rows(m.graph, keepEmpty, t).Some?
    ensures ClosurePlan(m, Rows(m.graph, keepEmpty, t).value)
  {
    hide Rows, RowAt, Paths, PathSet, MetDown, ValidManifest, Unfolds;
    var rows := Rows(m.graph, keepEmpty, t).value;
    ValidIsReadable(m.graph, t);
    PlanIsDemanded(m.graph, keepEmpty, t);
    PlanClaimsPaths(m.graph, keepEmpty, t);
    forall i | 0 <= i < |rows| ensures ManifestsOk(m.graph, MetDown(m.graph, m.closure, rows[i].path)) {
      PathIsListed(rows, i);
      LeafMeets(m.graph, keepEmpty, t, rows[i].path);
    }
  }

  // ----- the maker and the validator

  /** One row: it is paired and demanded unless INCLUDE goes on to other views. */
  lemma {:induction false} MadeRowPasses(m: Manifest, closureRow: Row, row: Row)
    requires RowAt(m.graph, m.closure, closureRow.path, closureRow.view, false).Some? && BothOk(m, closureRow.path)
    requires Coordinated(m, closureRow) && RootRow(m, closureRow) == Some(row)
    ensures IncludesAreLast(m.graph, m.root, closureRow.path) <==>
      && PathsPaired(m.graph, m.closure, m.root, closureRow, row)
      && RowAt(m.graph, m.root, row.path, row.view, true) == Some(row)
    ensures IncludesAreLast(m.graph, m.root, closureRow.path) ==> row.path == closureRow.path
  {
    hide RowAt, PlaceOf, PathsPaired, PairedEnd, RootRow, IncludesAreLast, ManifestsOk;
    CoordinatedIffPaired(m, closureRow, row);
    MadeIsDemanded(m, closureRow);
    DemandedShape(m.graph, m.root, closureRow.path, PlaceOf(m.graph, m.closure, m.root, closureRow.path).value.root);
  }

  /** One row: what is paired and demanded is what is made. */
  lemma {:induction false} PassingRowIsMade(m: Manifest, closureRow: Row, row: Row)
    requires RowAt(m.graph, m.closure, closureRow.path, closureRow.view, false).Some? && BothOk(m, closureRow.path)
    requires PathsPaired(m.graph, m.closure, m.root, closureRow, row)
    requires RowAt(m.graph, m.root, row.path, row.view, true) == Some(row)
    ensures Coordinated(m, closureRow) && RootRow(m, closureRow) == Some(row)
  {
    hide RowAt, PlaceOf, PathsPaired, Coordinated, RootRow, IncludesAreLast, ManifestsOk;
    CoordinatedIffPaired(m, closureRow, row);
    MadeIsDemanded(m, closureRow);
  }

  lemma {:induction false} SamePaths(a: seq<Row>, b: seq<Row>)
    requires |a| == |b| && forall i | 0 <= i < |a| :: a[i].path == b[i].path
    ensures RowPaths(a) == RowPaths(b)
  {
  }

  lemma {:induction false} PathsOk(m: Manifest, closureRows: seq<Row>, i: nat)
    requires ClosurePlan(m, closureRows) && AllViewsOk(m.graph, Met(m, closureRows)) && i < |closureRows|
    ensures BothOk(m, closureRows[i].path)
    ensures RowAt(m.graph, m.closure, closureRows[i].path, closureRows[i].view, false).Some?
  {
    hide RowAt, MetDown, Met, ValidView, PathSet, ValidManifest;
    MetContains(m, closureRows, i);
    ValidMeansManifest(m.graph, Met(m, closureRows), MetDown(m.graph, m.root, closureRows[i].path));
  }

  lemma {:induction false} ValidMeansManifest(g: Graph, all: set<ViewId>, some: set<ViewId>)
    requires AllViewsOk(g, all) && some <= all
    ensures ManifestsOk(g, some)
  {
  }

  /** INCLUDE goes on nowhere on the paths of the rows. */
  ghost predicate AllIncludesLast(m: Manifest, rows: seq<Row>) {
    forall i | 0 <= i < |rows| :: IncludesAreLast(m.graph, m.root, rows[i].path)
  }

  /**
   The validator accepts the rows that were made for a CLOSURE plan exactly when the
   enumeration of ROOT succeeds, every ROOT leaf has a CLOSURE row, and no CLOSURE path
   goes on below an INCLUDE reference of ROOT.
   */
  lemma {:induction false} MadeRowsPassIff(
    m: Manifest, task: PathEnumerator.Task, closureRows: seq<Row>, rows: seq<Row>, t: Tree)
    requires task.graph == m.graph && task.root == m.root && ClosurePlan(m, closureRows)
    requires Pairable(m, closureRows) && PairsRows(m, closureRows, rows)
    ensures RootCertified(task, m.closure, closureRows, t, rows) <==>
      && PathEnumerator.Enumerable(task, t)
      && PathSet(Paths(m.graph, task.keepEmpty, t)) <= PathSet(RowPaths(closureRows))
      && AllIncludesLast(m, closureRows)
  {
    hide RowAt, PathsPaired, Coordinated, RootRow, IncludesAreLast, PathSet, RowPaths, Paths, ClosurePlan, ValidView,
      PathEnumerator.Enumerable, BothOk, AllViewsOk, OverlaysDown, Met, WorkOf;
    DistinctClosure(m, closureRows);
    forall i | 0 <= i < |rows|
      ensures IncludesAreLast(m.graph, m.root, closureRows[i].path) <==>
        && PathsPaired(m.graph, m.closure, m.root, closureRows[i], rows[i])
        && RowAt(m.graph, m.root, rows[i].path, rows[i].view, true) == Some(rows[i])
      ensures PathsPaired(m.graph, m.closure, m.root, closureRows[i], rows[i]) ==>
        rows[i].path == closureRows[i].path
      ensures IncludesAreLast(m.graph, m.root, closureRows[i].path) ==> rows[i].path == closureRows[i].path
    {
      PathsOk(m, closureRows, i);
      MadeRowPasses(m, closureRows[i], rows[i]);
      PairedPath(m.graph, m.closure, m.root, closureRows[i], rows[i]);
    }
    if AllIncludesLast(m, closureRows) || RootCertified(task, m.closure, closureRows, t, rows) {
      SamePaths(rows, closureRows);
    }
  }

  lemma {:induction false} DistinctClosure(m: Manifest, closureRows: seq<Row>)
    requires ClosurePlan(m, closureRows)
    ensures |PathSet(RowPaths(closureRows))| == |closureRows|
  {
  }

  lemma {:induction false} PairedPath(g: Graph, closure: ViewId, root: ViewId, closureRow: Row, row: Row)
    ensures PathsPaired(g, closure, root, closureRow, row) ==> row.path == closureRow.path
  {
  }

  /** Whatever ROOT plan the validator would accept is the one that is made, within the limits. */
  lemma {:induction false} PassingRowsAreMade(
    m: Manifest, task: PathEnumerator.Task, closureRows: seq<Row>, rows: seq<Row>, t: Tree, result: Pairing)
    requires task.graph == m.graph && task.root == m.root && ClosurePlan(m, closureRows)
    requires RootCertified(task, m.closure, closureRows, t, rows) && |closureRows| >= 2
    requires AllViewsOk(m.graph, Met(m, closureRows)) && !Exceeds(m.limits.work, WorkOf(m.graph, Met(m, closureRows)))
    requires forall i | 0 <= i < |closureRows| ::
      !Exceeds(m.limits.depth, OverlaysDown(m.graph, m.root, closureRows[i].path))
    requires Explained(m, closureRows, result) && (result.Paired? <==> Pairable(m, closureRows))
    ensures result == Paired(rows, Met(m, closureRows))
  {
    hide RowAt, PathsPaired, Coordinated, RootRow, PathSet, RowPaths, Paths, ClosurePlan, ValidView, BothOk,
      PathEnumerator.Enumerable, AllViewsOk, OverlaysDown, Met, WorkOf;
    forall i | 0 <= i < |rows|
      ensures Coordinated(m, closureRows[i]) && RootRow(m, closureRows[i]) == Some(rows[i])
    {
      PathsOk(m, closureRows, i);
      PassingRowIsMade(m, closureRows[i], rows[i]);
    }
    assert Pairable(m, closureRows);
    assert result.rows == rows;
  }

  /** Under these conditions the rows that are made select what ROOT means. */
  lemma {:induction false} MadeRowsKeepMeaning(
    m: Manifest, task: PathEnumerator.Task, closureRows: seq<Row>, rows: seq<Row>, t: Tree)
    requires task.graph == m.graph && task.root == m.root && ClosurePlan(m, closureRows)
    requires Pairable(m, closureRows) && PairsRows(m, closureRows, rows)
    requires UnfoldingOf(m.graph, Key(m.root, false), t) && PathEnumerator.Enumerable(task, t)
    requires PathSet(Paths(m.graph, task.keepEmpty, t)) <= PathSet(RowPaths(closureRows))
    requires AllIncludesLast(m, closureRows)
    ensures multiset(Expand(m.graph, rows)) == multiset(CutMeaning(m.graph, t))
  {
    hide Pairable, PairsRows, ClosurePlan, RootCertified, AllIncludesLast, Paths, PathSet, RowPaths, Expand, CutMeaning,
      Unfolds, PathEnumerator.Enumerable;
    MadeRowsPassIff(m, task, closureRows, rows, t);
    RootPlanKeepsMeaning(task, m.closure, closureRows, t, rows);
  }
}
