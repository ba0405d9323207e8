/**
 The meaning of a view, root by root: which roots of which tables are selected, at which
 paths, with which scopes, and in which order.
 */
module MeaningLaws {
  import opened Wrappers
  import opened Manifests
  import opened Unfoldings
  import opened LeafPlans
  import opened LeafPaths
  import opened PlanMeaning
  import opened PlanChecker
  import opened RootPairing
  import opened RootTheorems
  import opened PathLaws
  import LeafResolver

  // ----- which roots a path chooses

  /**
   INCLUDE chooses listed roots of the source's own table and nothing else, EXCLUDE all but
   listed roots of that table; a path with one more segment ends at the source's own table.
   */
  predicate ChosenAlong(g: Graph, v: ViewId, path: Path, root: nat)
    decreases |path|
  {
    |path| <= 1 ||
    (&& v in g && path[0] < |g[v].refs|
     && (match g[v].refs[path[0]].posting
         case All => true
         case Include(ids) => |path| == 2 && root in ids
         case Exclude(ids) => |path| == 2 ==> root !in ids)
     && ChosenAlong(g, g[v].refs[path[0]].source, path[1..], root))
  }

  /** The scope of a node after the maps of the path; other nodes have none. */
  ghost predicate NamedAlong(g: Graph, v: ViewId, path: Path, table: Table, node: nat, scope: Option<Scope>) {
    if node < |table.nodes| && table.nodes[node].Some?
    then scope.Some? && TakenAlong(g, v, path, table.nodes[node].value, scope.value)
    else scope.None?
  }

  /** A root, counted from one, of the table that the path ends at, chosen and named by the path. */
  ghost predicate IsSelected(g: Graph, v: ViewId, local: bool, item: Selected) {
    && LeadsToEnd(g, v, local, item.path) && item.view == EndView(g, v, item.path) && item.view in g
    && var table := g[item.view].table;
    && 1 <= item.root <= |table.roots| && ChosenAlong(g, v, item.path, item.root)
    && var nodes := table.roots[item.root - 1];
    && |item.scopes| == |nodes|
    && forall k | 0 <= k < |nodes| :: NamedAlong(g, v, item.path, table, nodes[k], item.scopes[k])
  }

  // ----- one reference

  /** What a reference makes of an item of its source. */
  function Referred(r: Reference, segment: nat, item: Selected): Selected {
    item.(path := [segment] + item.path, scopes := MapScopes(r.scopeMap, item.scopes))
  }

  lemma {:induction false} ReferMembers(r: Reference, segment: nat, items: seq<Selected>, item: Selected)
    ensures item in Refer(r, segment, items) <==>
      exists inner | inner in items :: Picks(r.posting, inner) && item == Referred(r, segment, inner)
    decreases |items|
  {
    hide MapScopes, Picks;
    if items != [] {
      var init, last := items[..|items| - 1], items[|items| - 1];
      ReferMembers(r, segment, init, item);
      assert items == init + [last];
    }
  }

  lemma {:induction false} OwnMembers(g: Graph, v: ViewId, n: nat, item: Selected)
    requires v in g && n <= |TableOf(g, v).roots|
    ensures item in OwnRoots(g, v, n) <==>
      && item.path == [|Refs(g, v)|] && item.view == v && 1 <= item.root <= n
      && item.scopes == Render(TableOf(g, v), TableOf(g, v).roots[item.root - 1], [])
  {
    hide Render;
    if n > 0 {
      OwnMembers(g, v, n - 1, item);
    }
  }

  lemma {:induction false} OwnIsSelected(g: Graph, v: ViewId, local: bool, item: Selected)
    requires v in g && |item.path| == 1
    ensures item in OwnRoots(g, v, |TableOf(g, v).roots|) <==> IsSelected(g, v, local, item)
  {
    var table := g[v].table;
    OwnMembers(g, v, |table.roots|, item);
    assert item.path == [item.path[0]];
    if 1 <= item.root <= |table.roots| {
      OwnScopes(g, v, item.path, table, table.roots[item.root - 1], item.scopes);
    }
  }

  lemma {:induction false} OwnScopes(
    g: Graph, v: ViewId, path: Path, table: Table, nodes: seq<nat>, scopes: seq<Option<Scope>>)
    requires |path| == 1
    ensures scopes == Render(table, nodes, []) <==>
      |scopes| == |nodes| && forall k | 0 <= k < |nodes| :: NamedAlong(g, v, path, table, nodes[k], scopes[k])
  {
    assert forall s: Scope :: Effective([], s) == s;
    if |scopes| == |nodes| && forall k | 0 <= k < |nodes| :: NamedAlong(g, v, path, table, nodes[k], scopes[k]) {
      forall k | 0 <= k < |nodes| ensures scopes[k] == Render(table, nodes, [])[k] {
        assert NamedAlong(g, v, path, table, nodes[k], scopes[k]);
      }
    }
  }

  /** The names along a path are unique, and one more reference applies its map to them. */
  lemma {:induction false} NamedThrough(
    g: Graph, v: ViewId, i: nat, below: Path, table: Table, node: nat, scope: Option<Scope>, inner: Option<Scope>)
    requires v in g && i < |g[v].refs| && ValidScopeMap(g[v].refs[i].scopeMap) && below != []
    requires NamedAlong(g, g[v].refs[i].source, below, table, node, inner)
    requires forall other: Option<Scope> | NamedAlong(g, g[v].refs[i].source, below, table, node, other) :: other == inner
    ensures NamedAlong(g, v, [i] + below, table, node, scope) <==> scope == MapNode(g[v].refs[i].scopeMap, inner)
  {
    hide ValidScopeMap, Takes, MapScope;
    var r, path := g[v].refs[i], [i] + below;
    assert path[1..] == below && path[0] == i;
    if node < |table.nodes| && table.nodes[node].Some? {
      var s := table.nodes[node].value;
      assert TakenAlong(g, r.source, below, s, inner.value);
      forall mid | TakenAlong(g, r.source, below, s, mid) ensures mid == inner.value {
        assert NamedAlong(g, r.source, below, table, node, Some(mid));
      }
      if scope.Some? {
        TakesIsMapScope(r.scopeMap, inner.value, scope.value);
        assert TakenAlong(g, v, path, s, scope.value) <==>
          exists mid :: TakenAlong(g, r.source, below, s, mid) && Takes(r.scopeMap, mid, scope.value);
      }
    }
  }

  /** Every node of a table has exactly one name along a path through valid manifests. */
  lemma {:induction false} NameExists(g: Graph, v: ViewId, path: Path, table: Table, node: nat) returns (scope: Option<Scope>)
    requires path != [] && ManifestsOk(g, MetDown(g, v, path))
    requires exists local :: LeadsToEnd(g, v, local, path)
    ensures NamedAlong(g, v, path, table, node, scope)
    ensures forall other: Option<Scope> | NamedAlong(g, v, path, table, node, other) :: other == scope
    decreases |path|
  {
    hide ValidManifest, ManifestsOk, Takes, TakenAlong;
    if |path| == 1 {
      scope := if node < |table.nodes| then table.nodes[node] else None;
      NamesAtEnd(g, v, path);
    } else {
      var local :| LeadsToEnd(g, v, local, path);
      var r := g[v].refs[path[0]];
      MetBelow(g, v, path);
      MapIsValid(g, v, path[0]);
      assert LeadsToEnd(g, r.source, r.posting.Include?, path[1..]);
      var inner := NameExists(g, r.source, path[1..], table, node);
      assert path == [path[0]] + path[1..];
      scope := MapNode(r.scopeMap, inner);
      forall other: Option<Scope> ensures NamedAlong(g, v, path, table, node, other) <==> other == scope {
        NamedThrough(g, v, path[0], path[1..], table, node, other, inner);
      }
    }
  }

  lemma {:induction false} NamesAtEnd(g: Graph, v: ViewId, path: Path)
    requires |path| == 1
    ensures forall s, t :: TakenAlong(g, v, path, s, t) <==> t == s
  {
  }

  lemma {:induction false} NamesExist(g: Graph, v: ViewId, local: bool, path: Path, table: Table, nodes: seq<nat>)
    returns (scopes: seq<Option<Scope>>)
    requires LeadsToEnd(g, v, local, path) && ManifestsOk(g, MetDown(g, v, path))
    ensures |scopes| == |nodes|
    ensures forall k | 0 <= k < |nodes| :: NamedAlong(g, v, path, table, nodes[k], scopes[k])
  {
    hide ManifestsOk, MetDown, NamedAlong, LeadsToEnd;
    assert path != [] by { EndIsSomewhere(g, v, local, path); }
    scopes := [];
    if nodes != [] {
      var last := |nodes| - 1;
      scopes := NamesExist(g, v, local, path, table, nodes[..last]);
      var scope := NameExists(g, v, path, table, nodes[last]);
      scopes := scopes + [scope];
    }
  }

  lemma {:induction false} EndIsSomewhere(g: Graph, v: ViewId, local: bool, path: Path)
    requires LeadsToEnd(g, v, local, path)
    ensures path != []
  {
  }

  lemma {:induction false} EndMeets(g: Graph, t: Tree, path: Path)
    requires Unfolds(g, t) && AllManifestsValid(g, t) && LeadsToEnd(g, t.view, t.local, path)
    ensures ManifestsOk(g, MetDown(g, t.view, path))
    decreases |path|
  {
    hide Keys, ValidManifest;
    RootIsKey(t);
    if |path| > 1 {
      var i := path[0];
      ChildUnfolds(g, t, i);
      ChildrenAreValid(g, t, i);
      EndMeets(g, t.children[i], path[1..]);
    }
  }

  /** An item of a source, and what the reference makes of it. */
  lemma {:induction false} ReferredIsSelected(g: Graph, t: Tree, i: nat, inner: Selected)
    requires Unfolds(g, t) && AllManifestsValid(g, t) && i < |t.children|
    requires IsSelected(g, t.children[i].view, t.children[i].local, inner) && Picks(Refs(g, t.view)[i].posting, inner)
    ensures IsSelected(g, t.view, t.local, Referred(Refs(g, t.view)[i], i, inner))
  {
    hide ValidManifest, NamedAlong, TakenAlong, MapScope, AllManifestsValid;
    ChildUnfolds(g, t, i);
    var v, r, c := t.view, Refs(g, t.view)[i], t.children[i];
    var item, below := Referred(r, i, inner), inner.path;
    OneStepDown(g, t, i, below);
    assert item.path[1..] == below;
    RootIsValid(g, t);
    MapIsValid(g, v, i);
    ChildrenAreValid(g, t, i);
    EndMeets(g, c, below);
    var table := g[item.view].table;
    var nodes := table.roots[item.root - 1];
    forall k | 0 <= k < |nodes| ensures NamedAlong(g, v, item.path, table, nodes[k], item.scopes[k]) {
      var name := NameExists(g, c.view, below, table, nodes[k]);
      assert NamedAlong(g, c.view, below, table, nodes[k], inner.scopes[k]);
      NamedThrough(g, v, i, below, table, nodes[k], item.scopes[k], name);
    }
  }

  /** Every selected item with a longer path is made of a selected item of a source. */
  lemma {:induction false} SelectedIsReferred(g: Graph, t: Tree, item: Selected) returns (inner: Selected)
    requires Unfolds(g, t) && AllManifestsValid(g, t) && IsSelected(g, t.view, t.local, item) && |item.path| > 1
    ensures var i := item.path[0];
      && i < |t.children| == |Refs(g, t.view)|
      && IsSelected(g, t.children[i].view, t.children[i].local, inner) && Picks(Refs(g, t.view)[i].posting, inner)
      && item == Referred(Refs(g, t.view)[i], i, inner)
  {
    hide ValidManifest, NamedAlong, TakenAlong, MapScope, AllManifestsValid;
    var i, below := item.path[0], item.path[1..];
    assert item.path == [i] + below;
    OneStepDown(g, t, i, below);
    ChildUnfolds(g, t, i);
    var v, r, c := t.view, Refs(g, t.view)[i], t.children[i];
    RootIsValid(g, t);
    MapIsValid(g, v, i);
    ChildrenAreValid(g, t, i);
    EndMeets(g, c, below);
    var table := g[item.view].table;
    var nodes := table.roots[item.root - 1];
    var scopes := NamesExist(g, c.view, c.local, below, table, nodes);
    inner := Selected(below, item.view, item.root, scopes);
    forall k | 0 <= k < |nodes| ensures item.scopes[k] == MapNode(r.scopeMap, scopes[k]) {
      var name := NameExists(g, c.view, below, table, nodes[k]);
      NamedThrough(g, v, i, below, table, nodes[k], item.scopes[k], name);
    }
    assert item.scopes == MapScopes(r.scopeMap, scopes);
  }

  // ----- the meaning of an unfolding

  lemma {:induction false} KidsMembers(g: Graph, v: ViewId, kids: seq<Tree>, item: Selected)
    requires KidsUnfold(g, v, kids)
    ensures item in KidsCutMeaning(g, v, kids) <==>
      && item.path != [] && item.path[0] < |kids|
      && item in Refer(Refs(g, v)[item.path[0]], item.path[0], CutMeaning(g, kids[item.path[0]]))
    decreases |kids|
  {
    hide CutMeaning, Refer, Unfolds;
    if kids != [] {
      var last := |kids| - 1;
      KidsMembers(g, v, kids[..last], item);
      ReferMembers(Refs(g, v)[last], last, CutMeaning(g, kids[last]), item);
    }
  }

  /** The meaning of a view consists of exactly the items that its paths select. */
  lemma {:induction false} MeaningIsSelected(g: Graph, t: Tree, item: Selected)
    requires Unfolds(g, t) && AllManifestsValid(g, t)
    ensures item in CutMeaning(g, t) <==> IsSelected(g, t.view, t.local, item)
    decreases t, 1
  {
    hide IsSelected, AllManifestsValid, Refer, OwnRoots, KidsCutMeaning;
    KidsMembers(g, t.view, t.children, item);
    OwnMembers(g, t.view, |TableOf(g, t.view).roots|, item);
    if item.path == [] {
      NothingAtNoPath(g, t.view, t.local, item);
    } else if |item.path| == 1 {
      OwnIsSelected(g, t.view, t.local, item);
      if item.path[0] < |t.children| {
        ChildUnfolds(g, t, item.path[0]);
        ReferIsDeeper(g, t, item);
      }
    } else {
      if item in CutMeaning(g, t) {
        var i := item.path[0];
        ChildUnfolds(g, t, i);
        ReferMembers(Refs(g, t.view)[i], i, CutMeaning(g, t.children[i]), item);
        var inner :| inner in CutMeaning(g, t.children[i]) && Picks(Refs(g, t.view)[i].posting, inner)
          && item == Referred(Refs(g, t.view)[i], i, inner);
        ChildrenAreValid(g, t, i);
        MeaningIsSelected(g, t.children[i], inner);
        ReferredIsSelected(g, t, i, inner);
      }
      if IsSelected(g, t.view, t.local, item) {
        var inner := SelectedIsReferred(g, t, item);
        var i := item.path[0];
        ChildrenAreValid(g, t, i);
        ChildUnfolds(g, t, i);
        MeaningIsSelected(g, t.children[i], inner);
        ReferMembers(Refs(g, t.view)[i], i, CutMeaning(g, t.children[i]), item);
      }
    }
  }

  lemma {:induction false} NothingAtNoPath(g: Graph, v: ViewId, local: bool, item: Selected)
    requires item.path == []
    ensures !IsSelected(g, v, local, item)
  {
  }

  lemma {:induction false} ReferIsDeeper(g: Graph, t: Tree, item: Selected)
    requires Unfolds(g, t) && AllManifestsValid(g, t) && |item.path| == 1 && item.path[0] < |t.children|
    requires Unfolds(g, t.children[item.path[0]]) && item.path[0] < |Refs(g, t.view)|
    ensures item !in Refer(Refs(g, t.view)[item.path[0]], item.path[0], CutMeaning(g, t.children[item.path[0]]))
    decreases t, 0
  {
    hide CutMeaning, Refer, AllManifestsValid, IsSelected;
    var i := item.path[0];
    var items := CutMeaning(g, t.children[i]);
    ReferMembers(Refs(g, t.view)[i], i, items, item);
    if inner :| inner in items && Picks(Refs(g, t.view)[i].posting, inner) && item == Referred(Refs(g, t.view)[i], i, inner) {
      ChildrenAreValid(g, t, i);
      MeaningIsSelected(g, t.children[i], inner);
      NothingAtNoPath(g, t.children[i].view, t.children[i].local, inner);
      assert false;
    }
  }

  // ----- the order of the meaning

  /** Where two paths first differ, the first has the smaller segment. */
  ghost predicate PathBefore(p: Path, q: Path) {
    exists k | 0 <= k < |p| && k < |q| :: p[..k] == q[..k] && p[k] < q[k]
  }

  /** By path, and within a table by root. */
  ghost predicate ItemBefore(a: Selected, b: Selected) {
    PathBefore(a.path, b.path) || (a.path == b.path && a.root < b.root)
  }

  ghost predicate Ascend(items: seq<Selected>) {
    forall i, j | 0 <= i < j < |items| :: ItemBefore(items[i], items[j])
  }

  lemma {:induction false} AscendConcat(a: seq<Selected>, b: seq<Selected>)
    requires Ascend(a) && Ascend(b) && forall x, y | x in a && y in b :: ItemBefore(x, y)
    ensures Ascend(a + b)
  {
    hide ItemBefore;
  }

  lemma {:induction false} ReferredBefore(r: Reference, segment: nat, a: Selected, b: Selected)
    requires ItemBefore(a, b)
    ensures ItemBefore(Referred(r, segment, a), Referred(r, segment, b))
  {
    if PathBefore(a.path, b.path) {
      var k :| 0 <= k < |a.path| && k < |b.path| && a.path[..k] == b.path[..k] && a.path[k] < b.path[k];
      var p, q := [segment] + a.path, [segment] + b.path;
      assert p[..k + 1] == [segment] + a.path[..k] && q[..k + 1] == [segment] + b.path[..k];
    }
  }

  lemma {:induction false} ReferAscends(r: Reference, segment: nat, items: seq<Selected>)
    requires Ascend(items)
    ensures Ascend(Refer(r, segment, items))
    decreases |items|
  {
    hide ItemBefore, Picks;
    if items != [] {
      var init, last := items[..|items| - 1], items[|items| - 1];
      ReferAscends(r, segment, init);
      var before := Refer(r, segment, init);
      forall x | x in before ensures ItemBefore(x, Referred(r, segment, last)) {
        ReferMembers(r, segment, init, x);
        var inner :| inner in init && Picks(r.posting, inner) && x == Referred(r, segment, inner);
        ReferredBefore(r, segment, inner, last);
      }
      AscendConcat(before, [Referred(r, segment, last)]);
    }
  }

  lemma {:induction false} OwnAscends(g: Graph, v: ViewId, n: nat)
    requires v in g && n <= |TableOf(g, v).roots|
    ensures Ascend(OwnRoots(g, v, n))
  {
    hide Render;
    if n > 0 {
      OwnAscends(g, v, n - 1);
      forall x | x in OwnRoots(g, v, n - 1) ensures x.path == [|Refs(g, v)|] && x.root < n {
        OwnMembers(g, v, n - 1, x);
      }
    }
  }

  lemma {:induction false} FirstSegmentDecides(a: Selected, b: Selected)
    requires a.path != [] && b.path != [] && a.path[0] < b.path[0]
    ensures ItemBefore(a, b)
  {
    assert a.path[..0] == b.path[..0];
  }

  lemma {:induction false} KidsAscend(g: Graph, v: ViewId, kids: seq<Tree>)
    requires KidsUnfold(g, v, kids)
    requires forall i | 0 <= i < |kids| :: Ascend(CutMeaning(g, kids[i]))
    ensures Ascend(KidsCutMeaning(g, v, kids))
    decreases |kids|
  {
    hide CutMeaning, Refer, Ascend, ItemBefore, Unfolds;
    if kids == [] {
      NothingAscends();
    } else {
      var last := |kids| - 1;
      KidsAscend(g, v, kids[..last]);
      ReferAscends(Refs(g, v)[last], last, CutMeaning(g, kids[last]));
      var before, more := KidsCutMeaning(g, v, kids[..last]), Refer(Refs(g, v)[last], last, CutMeaning(g, kids[last]));
      forall x, y | x in before && y in more ensures ItemBefore(x, y) {
        KidsMembers(g, v, kids[..last], x);
        ReferMembers(Refs(g, v)[last], last, CutMeaning(g, kids[last]), y);
        FirstSegmentDecides(x, y);
      }
      AscendConcat(before, more);
    }
  }

  lemma {:induction false} NothingAscends()
    ensures Ascend([])
  {
  }

  /** The meaning is in order of paths and roots; with its members this says all of it. */
  lemma {:induction false} MeaningAscends(g: Graph, t: Tree)
    requires Unfolds(g, t)
    ensures Ascend(CutMeaning(g, t))
    decreases t
  {
    hide Ascend, ItemBefore, KidsCutMeaning, OwnRoots;
    forall i | 0 <= i < |t.children| ensures Ascend(CutMeaning(g, t.children[i])) {
      ChildUnfolds(g, t, i);
      MeaningAscends(g, t.children[i]);
    }
    KidsAscend(g, t.view, t.children);
    var n := |TableOf(g, t.view).roots|;
    OwnAscends(g, t.view, n);
    var kids, own := KidsCutMeaning(g, t.view, t.children), OwnRoots(g, t.view, n);
    forall x, y | x in kids && y in own ensures ItemBefore(x, y) {
      KidsMembers(g, t.view, t.children, x);
      OwnMembers(g, t.view, n, y);
      FirstSegmentDecides(x, y);
    }
    AscendConcat(kids, own);
  }

  // ----- the rows of a plan

  lemma {:induction false} RowMembers(g: Graph, row: Row, n: nat, item: Selected)
    requires n <= |TableOf(g, row.view).roots|
    ensures item in RowRoots(g, row, n) <==>
      && item.path == row.path && item.view == row.view && 1 <= item.root <= n && RowSelects(row, item.root)
      && item.scopes == Render(TableOf(g, row.view), TableOf(g, row.view).roots[item.root - 1], row.chain)
  {
    hide Render, RowSelects;
    if n > 0 {
      RowMembers(g, row, n - 1, item);
    }
  }

  lemma {:induction false} ExpandMembers(g: Graph, rows: seq<Row>, item: Selected)
    ensures item in Expand(g, rows) <==>
      exists row | row in rows :: item in RowRoots(g, row, |TableOf(g, row.view).roots|)
    decreases |rows|
  {
    hide RowRoots;
    if rows != [] {
      ExpandMembers(g, rows[..|rows| - 1], item);
      assert rows == rows[..|rows| - 1] + [rows[|rows| - 1]];
    }
  }

  /** A row selects a root of its table if it is included and not excluded. */
  predicate Keeps(row: Row, root: nat) {
    && (row.included.Some? ==> root in row.included.value)
    && (row.excluded.Some? ==> root !in row.excluded.value)
  }

  lemma {:induction false} KeptIsChosen(g: Graph, keepEmpty: bool, t: Tree, row: Row, root: nat)
    requires Unfolds(g, t) && AllManifestsValid(g, t) && Rows(g, keepEmpty, t).Some?
    requires row in Rows(g, keepEmpty, t).value && row.view in g && 1 <= root <= |g[row.view].table.roots|
    requires Keeps(row, root)
    ensures ChosenAlong(g, t.view, row.path, root)
  {
    hide Unfolds, Rows, Expand, CutMeaning, ChosenAlong, NamedAlong, LeadsToEnd, EndView, Render, AllManifestsValid;
    var table := g[row.view].table;
    var item := Selected(row.path, row.view, root, Render(table, table.roots[root - 1], row.chain));
    CutPlanKeepsMeaning(g, keepEmpty, t);
    RowMembers(g, row, |table.roots|, item);
    ExpandMembers(g, Rows(g, keepEmpty, t).value, item);
    MeaningIsSelected(g, t, item);
  }

  lemma {:induction false} ChosenIsKept(g: Graph, keepEmpty: bool, t: Tree, row: Row, root: nat)
    requires Unfolds(g, t) && AllManifestsValid(g, t) && Rows(g, keepEmpty, t).Some?
    requires row.view in g && 1 <= root <= |g[row.view].table.roots|
    requires LeadsToEnd(g, t.view, t.local, row.path) && row.view == EndView(g, t.view, row.path)
    requires ChosenAlong(g, t.view, row.path, root)
    ensures exists other | other in Rows(g, keepEmpty, t).value :: other.path == row.path && Keeps(other, root)
  {
    hide Unfolds, Rows, Expand, CutMeaning, ChosenAlong, NamedAlong, LeadsToEnd, EndView, AllManifestsValid;
    var table := g[row.view].table;
    EndMeets(g, t, row.path);
    var scopes := NamesExist(g, t.view, t.local, row.path, table, table.roots[root - 1]);
    var item := Selected(row.path, row.view, root, scopes);
    CutPlanKeepsMeaning(g, keepEmpty, t);
    MeaningIsSelected(g, t, item);
    ExpandMembers(g, Rows(g, keepEmpty, t).value, item);
    var other :| other in Rows(g, keepEmpty, t).value && item in RowRoots(g, other, |TableOf(g, other.view).roots|);
    RowMembers(g, other, |TableOf(g, other.view).roots|, item);
  }

  /** The selectors of a planned row choose exactly the roots that the references on its path choose. */
  lemma {:induction false} PlannedSelectors(task: LeafResolver.Task, result: LeafResolver.PlanResult, i: nat, root: nat)
    requires LeafResolver.AllJustified(task, result) && result.Planned? && i < |result.rows|
    requires result.rows[i].view in task.graph
    requires 1 <= root <= |task.graph[result.rows[i].view].table.roots|
    ensures Keeps(result.rows[i], root) <==> ChosenAlong(task.graph, task.root, result.rows[i].path, root)
  {
    hide LeafResolver.Admitted, Unfolds, Rows, ChosenAlong, LeadsToEnd, EndView, Keeps, Paths, PathSet;
    var g, row := task.graph, result.rows[i];
    assert LeafResolver.Grounded(task, result);
    var t :| UnfoldingOf(g, Key(task.root, false), t);
    var rows := PlannedRows(task, result, t);
    PlannedPaths(task, result, row.path);
    if Keeps(row, root) {
      KeptIsChosen(g, task.keepEmpty, t, row, root);
    }
    if ChosenAlong(g, task.root, row.path, root) {
      ChosenIsKept(g, task.keepEmpty, t, row, root);
      var other :| other in rows && other.path == row.path && Keeps(other, root);
      var j :| 0 <= j < |rows| && rows[j] == other;
      assert j == i;
    }
  }

  /** What a plan of any graph selects: the items that the paths select, in order. */
  lemma {:induction false} PlanSelects(task: LeafResolver.Task, result: LeafResolver.PlanResult, item: Selected)
    requires LeafResolver.AllJustified(task, result) && result.Planned?
    ensures item in Expand(task.graph, result.rows) <==> IsSelected(task.graph, task.root, false, item)
    ensures Ascend(Expand(task.graph, result.rows))
  {
    hide LeafResolver.Admitted, Unfolds, Rows, Expand, CutMeaning, IsSelected, Ascend;
    assert LeafResolver.Grounded(task, result);
    var t :| UnfoldingOf(task.graph, Key(task.root, false), t);
    var rows := PlannedRows(task, result, t);
    CutPlanKeepsMeaning(task.graph, task.keepEmpty, t);
    MeaningIsSelected(task.graph, t, item);
    MeaningAscends(task.graph, t);
  }

  // ----- the order of the rows

  ghost predicate PathsAscend(paths: seq<Path>) {
    forall i, j | 0 <= i < j < |paths| :: PathBefore(paths[i], paths[j])
  }

  lemma {:induction false} PrefixedAscend(segment: nat, paths: seq<Path>)
    requires PathsAscend(paths)
    ensures PathsAscend(Prefixed(segment, paths))
  {
    var moved := Prefixed(segment, paths);
    forall i, j | 0 <= i < j < |moved| ensures PathBefore(moved[i], moved[j]) {
      assert PathBefore(paths[i], paths[j]);
      var k :| 0 <= k < |paths[i]| && k < |paths[j]| && paths[i][..k] == paths[j][..k] && paths[i][k] < paths[j][k];
      assert moved[i][..k + 1] == [segment] + paths[i][..k] && moved[j][..k + 1] == [segment] + paths[j][..k];
    }
  }

  lemma {:induction false} PathsAscendConcat(a: seq<Path>, b: seq<Path>, bound: nat)
    requires PathsAscend(a) && PathsAscend(b)
    requires forall i | 0 <= i < |a| :: a[i] != [] && a[i][0] < bound
    requires forall i | 0 <= i < |b| :: b[i] != [] && b[i][0] == bound
    ensures PathsAscend(a + b)
  {
    forall i, j | 0 <= i < |a| && 0 <= j < |b| ensures PathBefore(a[i], b[j]) {
      assert a[i][..0] == b[j][..0];
    }
    hide PathBefore;
  }

  /** The rows of a plan come in order of their paths. */
  lemma {:induction false} PlanInPathOrder(g: Graph, keepEmpty: bool, t: Tree)
    requires Unfolds(g, t) && Rows(g, keepEmpty, t).Some?
    ensures PathsAscend(RowPaths(Rows(g, keepEmpty, t).value))
    decreases t
  {
    hide PathBefore;
    KidsInPathOrder(g, keepEmpty, t.view, t.children);
    var kids := KidsRows(g, keepEmpty, t.view, t.children).value;
    var own := if HasLocalLeaf(g, keepEmpty, t.view) then [LocalRow(g, t.view)] else [];
    RowPathsConcat(kids, own);
    if t.children == [] {
      assert RowPaths(kids) == [] && RowPaths(kids) + RowPaths(own) == RowPaths(own);
    } else {
      ChildUnfolds(g, t, 0);
      PathsAscendConcat(RowPaths(kids), RowPaths(own), |Refs(g, t.view)|);
    }
  }

  lemma {:induction false} KidsInPathOrder(g: Graph, keepEmpty: bool, v: ViewId, kids: seq<Tree>)
    requires KidsUnfold(g, v, kids) && KidsRows(g, keepEmpty, v, kids).Some?
    ensures var paths := RowPaths(KidsRows(g, keepEmpty, v, kids).value);
      PathsAscend(paths) && forall i | 0 <= i < |paths| :: paths[i] != [] && paths[i][0] < |kids|
    decreases kids
  {
    hide PathBefore, ApplyReference, Rows, Unfolds, PathsAscend, RowPaths;
    if kids == [] {
      NoRowsAscend();
    } else {
      var last := |kids| - 1;
      var c, r := kids[last], Refs(g, v)[last];
      var before, child := KidsRows(g, keepEmpty, v, kids[..last]).value, Rows(g, keepEmpty, c).value;
      KidsInPathOrder(g, keepEmpty, v, kids[..last]);
      PlanInPathOrder(g, keepEmpty, c);
      ChildRowsAreOwn(g, keepEmpty, v, kids, last);
      ReferenceKeepsPaths(g, r, last, child);
      PrefixedAscend(last, RowPaths(child));
      var applied := ApplyReference(g, r, last, child).value;
      RowPathsConcat(before, applied);
      PathsAscendConcat(RowPaths(before), RowPaths(applied), last);
    }
  }

  lemma {:induction false} NoRowsAscend()
    ensures RowPaths([]) == [] && PathsAscend([])
  {
  }

  // ----- what valid selectors and manifests ensure

  function Chosen(ids: seq<nat>, rootCount: nat): set<nat> {
    set n | 1 <= n <= rootCount && n in ids
  }

  lemma {:induction false} IdsAreCounted(ids: seq<nat>, rootCount: nat)
    requires forall i | 0 <= i < |ids| :: 1 <= ids[i] <= rootCount
    requires forall i, j | 0 <= i < j < |ids| :: ids[i] < ids[j]
    ensures |Chosen(ids, rootCount)| == |ids|
    decreases |ids|
  {
    hide Chosen;
    if ids == [] {
      NothingChosen(rootCount);
    } else {
      var init, last := ids[..|ids| - 1], ids[|ids| - 1];
      IdsAreCounted(init, rootCount);
      assert ids == init + [last];
      OneMoreChosen(init, last, rootCount);
    }
  }

  lemma {:induction false} NothingChosen(rootCount: nat)
    ensures |Chosen([], rootCount)| == 0
  {
    assert Chosen([], rootCount) == {};
  }

  lemma {:induction false} OneMoreChosen(init: seq<nat>, last: nat, rootCount: nat)
    requires 1 <= last <= rootCount && last !in init
    ensures |Chosen(init + [last], rootCount)| == |Chosen(init, rootCount)| + 1
  {
    assert Chosen(init + [last], rootCount) == Chosen(init, rootCount) + {last};
  }

  /** A valid INCLUDE chooses as many roots as it lists, and at least one; a valid EXCLUDE spares all others. */
  lemma {:induction false} SelectorsChooseTheirLists(g: Graph, v: ViewId, i: nat)
    requires ValidManifest(g, v) && i < |g[v].refs|
    ensures var r := g[v].refs[i];
      var count := |g[r.source].table.roots|;
      match r.posting
      case All => true
      case Include(ids) => 1 <= |Chosen(ids, count)| == |ids| <= count
      case Exclude(ids) => 1 <= |Chosen(ids, count)| == |ids| <= count
  {
    var r := g[v].refs[i];
    var count := |g[r.source].table.roots|;
    if !r.posting.All? {
      IdsAreCounted(r.posting.ids, count);
      ChosenIsSmall(r.posting.ids, count);
    }
  }

  lemma {:induction false} ChosenIsSmall(ids: seq<nat>, count: nat)
    ensures |Chosen(ids, count)| <= count
  {
    if count > 0 {
      ChosenIsSmall(ids, count - 1);
      var fewer := Chosen(ids, count - 1);
      assert Chosen(ids, count) == if count in ids then fewer + {count} else fewer;
    } else {
      assert Chosen(ids, count) == {};
    }
  }

  /** In a valid view the nodes of every root exist. */
  lemma {:induction false} RootsHaveNodes(g: Graph, v: ViewId, n: nat, node: nat)
    requires ValidView(g, v) && n < |g[v].table.roots| && node in g[v].table.roots[n]
    ensures node < |g[v].table.nodes|
  {
    var k :| 0 <= k < |g[v].table.roots[n]| && g[v].table.roots[n][k] == node;
  }

  /** A valid manifest is of one of three families, never refers to its own view, and takes no scope to itself. */
  lemma {:induction false} ManifestShape(g: Graph, v: ViewId)
    requires ValidManifest(g, v)
    ensures g[v].kind == Direct ==> |g[v].refs| == 0 && g[v].local
    ensures g[v].kind == Overlay ==> |g[v].refs| == 1 && (g[v].refs[0].posting == All || g[v].refs[0].posting.Exclude?)
    ensures g[v].kind == Composite ==> |g[v].refs| >= 2
    ensures g[v].kind != Direct ==> (g[v].local <==> |g[v].table.roots| > 0)
    ensures forall i, j | 0 <= i < |g[v].refs| && 0 <= j < |g[v].refs| && g[v].refs[i].token == g[v].refs[j].token :: i == j
    ensures forall i | 0 <= i < |g[v].refs| ::
      g[v].refs[i].source in g && g[v].refs[i].source != v && g[v].refs[i].owner == g[g[v].refs[i].source].owner
    ensures forall i, s | 0 <= i < |g[v].refs| && Takes(g[v].refs[i].scopeMap, s, s) ::
      forall j | 0 <= j < |g[v].refs[i].scopeMap| :: g[v].refs[i].scopeMap[j].source != s
  {
    forall i, s | 0 <= i < |g[v].refs| && Takes(g[v].refs[i].scopeMap, s, s)
      ensures forall j | 0 <= j < |g[v].refs[i].scopeMap| :: g[v].refs[i].scopeMap[j].source != s
    {
      assert ValidReference(g, v, g[v].refs[i]);
    }
  }
}
