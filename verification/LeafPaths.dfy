/** The coordinates of the leaves of an unfolding: one path of segment indexes for each. */
module LeafPaths {
  import opened Wrappers
  import opened Manifests
  import opened Unfoldings
  import opened LeafPlans

  type Path = seq<nat>

  function Prefixed(segment: nat, paths: seq<Path>): (moved: seq<Path>)
    ensures |moved| == |paths|
    ensures forall i | 0 <= i < |paths| :: moved[i] == [segment] + paths[i]
  {
    if paths == [] then [] else
      Prefixed(segment, paths[..|paths| - 1]) + [[segment] + paths[|paths| - 1]]
  }

  function OwnPaths(g: Graph, keepEmpty: bool, v: ViewId): seq<Path> {
    if HasLocalLeaf(g, keepEmpty, v) then [[|Refs(g, v)|]] else []
  }

  ghost function Paths(g: Graph, keepEmpty: bool, t: Tree): seq<Path>
    decreases t
  {
    OwnPaths(g, keepEmpty, t.view) + KidsPaths(g, keepEmpty, t.children)
  }

  ghost function KidsPaths(g: Graph, keepEmpty: bool, kids: seq<Tree>): seq<Path>
    decreases kids
  {
    if kids == [] then [] else
      var last := |kids| - 1;
      KidsPaths(g, keepEmpty, kids[..last]) + Prefixed(last, Paths(g, keepEmpty, kids[last]))
  }

  function PathSet(paths: seq<Path>): set<Path> {
    set i | 0 <= i < |paths| :: paths[i]
  }

  function RowPaths(rows: seq<Row>): (paths: seq<Path>)
    ensures |paths| == |rows|
    ensures forall i | 0 <= i < |rows| :: paths[i] == rows[i].path
  {
    if rows == [] then [] else RowPaths(rows[..|rows| - 1]) + [rows[|rows| - 1].path]
  }

  // ----- one path per leaf, and no path inside another

  lemma {:induction false} PathPerLeaf(g: Graph, keepEmpty: bool, t: Tree)
    ensures |Paths(g, keepEmpty, t)| == Leaves(g, keepEmpty, t)
    decreases t
  {
    KidsPathPerLeaf(g, keepEmpty, t.children);
  }

  lemma {:induction false} KidsPathPerLeaf(g: Graph, keepEmpty: bool, kids: seq<Tree>)
    ensures |KidsPaths(g, keepEmpty, kids)| == KidsLeaves(g, keepEmpty, kids)
    decreases kids
  {
    if kids != [] {
      KidsPathPerLeaf(g, keepEmpty, kids[..|kids| - 1]);
      PathPerLeaf(g, keepEmpty, kids[|kids| - 1]);
    }
  }

  /** No path is a prefix of another one; in particular no two are equal. */
  ghost predicate PrefixFree(paths: seq<Path>) {
    forall i, j | 0 <= i < |paths| && 0 <= j < |paths| && i != j :: !(paths[i] <= paths[j])
  }

  /** All paths start below `bound`. */
  ghost predicate StartBelow(paths: seq<Path>, bound: nat) {
    forall i | 0 <= i < |paths| :: |paths[i]| >= 1 && paths[i][0] < bound
  }

  lemma {:induction false} PathsArePrefixFree(g: Graph, keepEmpty: bool, t: Tree)
    requires Unfolds(g, t)
    ensures PrefixFree(Paths(g, keepEmpty, t))
    ensures StartBelow(Paths(g, keepEmpty, t), |Refs(g, t.view)| + 1)
    decreases t
  {
    KidsPathsArePrefixFree(g, keepEmpty, t.view, t.children);
    var own, kids := OwnPaths(g, keepEmpty, t.view), KidsPaths(g, keepEmpty, t.children);
    assert StartBelow(kids, |t.children|);
    SeparateStarts(own, kids, |t.children|);
  }

  /** Lists that start on different sides of a bound cannot interfere. */
  lemma {:induction false} SeparateStarts(high: seq<Path>, low: seq<Path>, bound: nat)
    requires PrefixFree(high) && PrefixFree(low) && StartBelow(low, bound)
    requires forall i | 0 <= i < |high| :: |high[i]| >= 1 && high[i][0] >= bound
    ensures PrefixFree(high + low) && PrefixFree(low + high)
  {
    forall i, j | 0 <= i < |low| && 0 <= j < |high| ensures !(low[i] <= high[j]) && !(high[j] <= low[i]) {
      assert low[i][0] != high[j][0];
    }
  }

  lemma {:induction false} PrefixedIsPrefixFree(segment: nat, paths: seq<Path>)
    requires PrefixFree(paths)
    ensures PrefixFree(Prefixed(segment, paths))
  {
    var moved := Prefixed(segment, paths);
    forall i, j | 0 <= i < |moved| && 0 <= j < |moved| && i != j ensures !(moved[i] <= moved[j]) {
      assert moved[i][1..] == paths[i] && moved[j][1..] == paths[j];
    }
  }

  lemma {:induction false} KidsPathsArePrefixFree(g: Graph, keepEmpty: bool, v: ViewId, kids: seq<Tree>)
    requires KidsUnfold(g, v, kids)
    ensures PrefixFree(KidsPaths(g, keepEmpty, kids)) && StartBelow(KidsPaths(g, keepEmpty, kids), |kids|)
    decreases kids
  {
    if kids != [] {
      var last := |kids| - 1;
      KidsPathsArePrefixFree(g, keepEmpty, v, kids[..last]);
      PathsArePrefixFree(g, keepEmpty, kids[last]);
      var below, above := KidsPaths(g, keepEmpty, kids[..last]), Paths(g, keepEmpty, kids[last]);
      PrefixedIsPrefixFree(last, above);
      SeparateStarts(Prefixed(last, above), below, last);
    }
  }

  lemma {:induction false} PrefixFreeIsInjective(paths: seq<Path>)
    requires PrefixFree(paths)
    ensures |PathSet(paths)| == |paths|
    decreases |paths|
  {
    if paths != [] {
      var init, last := paths[..|paths| - 1], paths[|paths| - 1];
      assert PathSet(paths) == PathSet(init) + {last};
      assert last !in PathSet(init);
      PrefixFreeIsInjective(init);
    }
  }

  // ----- a plan has the paths of its unfolding

  lemma {:induction false} PathSetConcat(a: seq<Path>, b: seq<Path>)
    ensures PathSet(a + b) == PathSet(a) + PathSet(b)
  {
    assert forall i | 0 <= i < |a| :: (a + b)[i] == a[i];
    assert forall i | 0 <= i < |b| :: (a + b)[|a| + i] == b[i];
    assert forall i | |a| <= i < |a| + |b| :: (a + b)[i] == b[i - |a|];
  }

  /** A leaf below a view is a leaf of one of its children. */
  lemma {:induction false} LeafOfChild(g: Graph, keepEmpty: bool, v: ViewId, kids: seq<Tree>, path: Path)
    returns (i: nat, below: Path)
    requires KidsUnfold(g, v, kids) && path in PathSet(KidsPaths(g, keepEmpty, kids))
    ensures i < |kids| && path == [i] + below && below != []
    ensures below in PathSet(Paths(g, keepEmpty, kids[i]))
    decreases |kids|
  {
    i := |kids| - 1;
    var paths := Paths(g, keepEmpty, kids[i]);
    PathSetConcat(KidsPaths(g, keepEmpty, kids[..i]), Prefixed(i, paths));
    if path in PathSet(Prefixed(i, paths)) {
      var k :| 0 <= k < |paths| && Prefixed(i, paths)[k] == path;
      below := paths[k];
      PathsArePrefixFree(g, keepEmpty, kids[i]);
    } else {
      i, below := LeafOfChild(g, keepEmpty, v, kids[..i], path);
    }
  }

  lemma {:induction false} PrefixedSet(segment: nat, a: seq<Path>, b: seq<Path>)
    requires PathSet(a) <= PathSet(b)
    ensures PathSet(Prefixed(segment, a)) <= PathSet(Prefixed(segment, b))
  {
    forall p | p in PathSet(Prefixed(segment, a)) ensures p in PathSet(Prefixed(segment, b)) {
      var i :| 0 <= i < |a| && Prefixed(segment, a)[i] == p;
      assert a[i] in PathSet(a);
      var j :| 0 <= j < |b| && b[j] == a[i];
      assert Prefixed(segment, b)[j] == p;
    }
  }

  lemma {:induction false} PostingsKeepPaths(rows: seq<Row>, source: ViewId, posting: Posting)
    requires posting.Include? ==> forall i | 0 <= i < |rows| :: rows[i].view == source
    ensures var kept := ApplyPostings(rows, source, posting);
      kept.Some? ==> RowPaths(kept.value) == RowPaths(rows)
    decreases |rows|
  {
    if rows != [] && !posting.All? && ApplyPostings(rows, source, posting).Some? {
      PostingsKeepPaths(rows[..|rows| - 1], source, posting);
    }
  }

  /** Within a plan, a reference moves every path one segment down and loses none. */
  lemma {:induction false} ReferenceKeepsPaths(g: Graph, r: Reference, segment: nat, rows: seq<Row>)
    requires r.posting.Include? ==> forall i | 0 <= i < |rows| :: rows[i].view == r.source
    ensures var applied := ApplyReference(g, r, segment, rows);
      applied.Some? ==> RowPaths(applied.value) == Prefixed(segment, RowPaths(rows))
  {
    var mapped := ApplyScopeMap(g, rows, r.scopeMap);
    PostingsKeepPaths(mapped, r.source, r.posting);
    assert RowPaths(mapped) == RowPaths(rows);
    var kept := ApplyPostings(mapped, r.source, r.posting);
    if kept.Some? {
      forall i | 0 <= i < |kept.value|
        ensures RowPaths(PrependSegment(kept.value, segment))[i] == Prefixed(segment, RowPaths(rows))[i]
      {
        assert RowPaths(kept.value)[i] == RowPaths(rows)[i];
      }
    }
  }

  lemma {:induction false} RowPathsConcat(a: seq<Row>, b: seq<Row>)
    ensures RowPaths(a + b) == RowPaths(a) + RowPaths(b)
  {
    forall i | 0 <= i < |a| + |b| ensures RowPaths(a + b)[i] == (RowPaths(a) + RowPaths(b))[i] {
    }
  }

  lemma {:induction false} PlanHasPaths(g: Graph, keepEmpty: bool, t: Tree)
    requires Unfolds(g, t)
    ensures Rows(g, keepEmpty, t).Some? ==>
      PathSet(RowPaths(Rows(g, keepEmpty, t).value)) == PathSet(Paths(g, keepEmpty, t))
    decreases t
  {
    KidsPlanHasPaths(g, keepEmpty, t.view, t.children);
    if Rows(g, keepEmpty, t).Some? {
      var kids := KidsRows(g, keepEmpty, t.view, t.children).value;
      var own := if HasLocalLeaf(g, keepEmpty, t.view) then [LocalRow(g, t.view)] else [];
      assert Rows(g, keepEmpty, t).value == kids + own;
      assert Paths(g, keepEmpty, t) == OwnPaths(g, keepEmpty, t.view) + KidsPaths(g, keepEmpty, t.children);
      assert RowPaths(own) == OwnPaths(g, keepEmpty, t.view);
      hide Rows, Paths, PathSet, RowPaths, KidsRows, KidsPaths, OwnPaths;
      RowPathsConcat(kids, own);
      PathSetConcat(RowPaths(kids), RowPaths(own));
      PathSetConcat(OwnPaths(g, keepEmpty, t.view), KidsPaths(g, keepEmpty, t.children));
    }
  }

  lemma {:induction false} KidsPlanHasPaths(g: Graph, keepEmpty: bool, v: ViewId, kids: seq<Tree>)
    requires KidsUnfold(g, v, kids)
    ensures KidsRows(g, keepEmpty, v, kids).Some? ==>
      PathSet(RowPaths(KidsRows(g, keepEmpty, v, kids).value)) == PathSet(KidsPaths(g, keepEmpty, kids))
    decreases kids
  {
    if kids != [] && KidsRows(g, keepEmpty, v, kids).Some? {
      var last := |kids| - 1;
      KidsPlanHasPaths(g, keepEmpty, v, kids[..last]);
      PlanHasPaths(g, keepEmpty, kids[last]);
      ChildRowsAreOwn(g, keepEmpty, v, kids, last);
      hide Unfolds, Rows, ApplyReference, Paths, PathSet, RowPaths, Prefixed;
      OneMoreChild(Refs(g, v)[last], g, last, KidsRows(g, keepEmpty, v, kids[..last]).value,
        Rows(g, keepEmpty, kids[last]).value, KidsPaths(g, keepEmpty, kids[..last]),
        Paths(g, keepEmpty, kids[last]));
    }
  }

  lemma {:induction false} OneMoreChild(
    r: Reference, g: Graph, segment: nat, prior: seq<Row>, child: seq<Row>, priorPaths: seq<Path>,
    childPaths: seq<Path>)
    requires r.posting.Include? ==> forall i | 0 <= i < |child| :: child[i].view == r.source
    requires PathSet(RowPaths(prior)) == PathSet(priorPaths)
    requires PathSet(RowPaths(child)) == PathSet(childPaths)
    ensures var applied := ApplyReference(g, r, segment, child);
      applied.Some? ==>
        PathSet(RowPaths(prior + applied.value)) == PathSet(priorPaths + Prefixed(segment, childPaths))
  {
    ReferenceKeepsPaths(g, r, segment, child);
    var applied := ApplyReference(g, r, segment, child);
    if applied.Some? {
      hide ApplyReference, PathSet, RowPaths, Prefixed;
      PrefixedSet(segment, RowPaths(child), childPaths);
      PrefixedSet(segment, childPaths, RowPaths(child));
      RowPathsConcat(prior, applied.value);
      PathSetConcat(RowPaths(prior), RowPaths(applied.value));
      PathSetConcat(priorPaths, Prefixed(segment, childPaths));
    }
  }
}
