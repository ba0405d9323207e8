/**
 ROOT plans: the rows of the ROOT view, one for every row of the CLOSURE plan.

 ROOT omits the local additions of containers, so a ROOT row may stand for a segment
 that its container does not have.  The checker pairs the two plans row by row, by
 path and owner, and follows each path through both manifests in step.
 */
module RootPlan {
  import opened Wrappers
  import opened Manifests
  import opened Unfoldings
  import opened LeafPlans
  import opened LeafPaths
  import opened Traversal
  import opened PlanMeaning
  import opened PathEnumerator
  import opened PlanChecker

  datatype Role = DirectRole | BaseRole | DeltaRole | MemberRole | BridgeRole

  function RoleAt(g: Graph, v: ViewId, segment: nat): Option<Role> {
    if v !in g then None
    else if segment < |g[v].refs| then Some(if g[v].kind.Overlay? then BaseRole else MemberRole)
    else if segment == |g[v].refs| && g[v].local then
      Some(match g[v].kind case Direct => DirectRole case Overlay => DeltaRole case Composite => BridgeRole)
    else None
  }

  function OwnerOf(g: Graph, v: ViewId): Option<Owner> {
    if v in g then Some(g[v].owner) else None
  }

  /** The view reached by the first `n` segments of a path. */
  function ViewAt(g: Graph, v: ViewId, path: Path, n: nat): Option<ViewId>
    requires n <= |path|
  {
    if n == 0 then Some(v) else
      var prior :- ViewAt(g, v, path, n - 1);
      if path[n - 1] < |Refs(g, prior)| && Readable(g, prior, Refs(g, prior)[path[n - 1]])
      then Some(Refs(g, prior)[path[n - 1]].source)
      else None
  }

  /** Segment `segment` is a readable reference of the same role, source owner and token in both views. */
  predicate SameReference(g: Graph, closure: ViewId, root: ViewId, segment: nat) {
    && segment < |Refs(g, closure)| && segment < |Refs(g, root)|
    && Readable(g, closure, Refs(g, closure)[segment]) && Readable(g, root, Refs(g, root)[segment])
    && RoleAt(g, closure, segment) == RoleAt(g, root, segment)
    && Refs(g, closure)[segment].owner == Refs(g, root)[segment].owner
    && (RoleAt(g, closure, segment) == Some(MemberRole) ==>
          Refs(g, closure)[segment].token == Refs(g, root)[segment].token)
  }

  /** The last segment has one role on both sides, or is canonically absent from ROOT. */
  predicate SameEnd(g: Graph, closure: ViewId, root: ViewId, segment: nat) {
    && RoleAt(g, closure, segment).Some?
    && (RoleAt(g, root, segment) == RoleAt(g, closure, segment) ||
        (RoleAt(g, root, segment).None? && MissingLocal(g, root, segment)))
  }

  /** The two paths agree on their first `n` references. */
  predicate InStep(g: Graph, closure: ViewId, root: ViewId, path: Path, n: nat)
    requires n <= |path|
  {
    forall i | 0 <= i < n ::
      var c, r := ViewAt(g, closure, path, i), ViewAt(g, root, path, i);
      c.Some? && r.Some? && SameReference(g, c.value, r.value, path[i])
  }

  /** The path leads through paired references to the tables of both rows. */
  predicate PathsPaired(g: Graph, closure: ViewId, root: ViewId, closureRow: Row, rootRow: Row) {
    var path := closureRow.path;
    && path != [] && rootRow.path == path
    && OwnerOf(g, closureRow.view) == OwnerOf(g, rootRow.view)
    && InStep(g, closure, root, path, |path| - 1)
    && ViewAt(g, closure, path, |path| - 1) == Some(closureRow.view)
    && ViewAt(g, root, path, |path| - 1) == Some(rootRow.view)
    && SameEnd(g, closureRow.view, rootRow.view, path[|path| - 1])
  }

  /** Checks one reference of the path; the order of the tests does not matter for the result. */
  method CheckReference(g: Graph, closure: ViewId, root: ViewId, segment: nat) returns (same: bool)
    ensures same <==> SameReference(g, closure, root, segment)
  {
    var role := RoleAt(g, closure, segment);
    if role.None? || RoleAt(g, root, segment) != role || (role.value != BaseRole && role.value != MemberRole) {
      return false;
    }
    var c, r := Refs(g, closure)[segment], Refs(g, root)[segment];
    if !Readable(g, closure, c) || !Readable(g, root, r) || c.owner != r.owner {
      return false;
    }
    same := role.value != MemberRole || c.token == r.token;
  }

  /** Follows the references of one path through both manifests at once. */
  method FollowBoth(g: Graph, closure: ViewId, root: ViewId, path: Path)
    returns (same: bool, c: ViewId, r: ViewId)
    requires path != []
    ensures same <==> InStep(g, closure, root, path, |path| - 1)
    ensures same ==>
      && ViewAt(g, closure, path, |path| - 1) == Some(c)
      && ViewAt(g, root, path, |path| - 1) == Some(r)
  {
    hide InStep, ViewAt, SameReference;
    same, c, r := true, closure, root;
    var i := 0;
    StartInStep(g, closure, root, path);
    while i < |path| - 1
      invariant 0 <= i <= |path| - 1 && same
      invariant ViewAt(g, closure, path, i) == Some(c) && ViewAt(g, root, path, i) == Some(r)
      invariant InStep(g, closure, root, path, i)
    {
      StaysInStep(g, closure, root, path, i, c, r);
      same := CheckReference(g, c, r, path[i]);
      if !same {
        return;
      }
      c, r := Refs(g, c)[path[i]].source, Refs(g, r)[path[i]].source;
      i := i + 1;
    }
  }

  lemma {:induction false} StartInStep(g: Graph, closure: ViewId, root: ViewId, path: Path)
    ensures InStep(g, closure, root, path, 0)
    ensures ViewAt(g, closure, path, 0) == Some(closure) && ViewAt(g, root, path, 0) == Some(root)
  {
  }

  lemma {:induction false} StaysInStep(
    g: Graph, closure: ViewId, root: ViewId, path: Path, i: nat, c: ViewId, r: ViewId)
    requires i < |path| - 1 && InStep(g, closure, root, path, i)
    requires ViewAt(g, closure, path, i) == Some(c) && ViewAt(g, root, path, i) == Some(r)
    ensures !SameReference(g, c, r, path[i]) ==> !InStep(g, closure, root, path, |path| - 1)
    ensures SameReference(g, c, r, path[i]) ==>
      && InStep(g, closure, root, path, i + 1)
      && path[i] < |Refs(g, c)| && path[i] < |Refs(g, r)|
      && ViewAt(g, closure, path, i + 1) == Some(Refs(g, c)[path[i]].source)
      && ViewAt(g, root, path, i + 1) == Some(Refs(g, r)[path[i]].source)
  {
    hide Readable, RoleAt;
  }

  method CheckPair(g: Graph, closure: ViewId, root: ViewId, closureRow: Row, rootRow: Row)
    returns (paired: bool)
    ensures paired <==> PathsPaired(g, closure, root, closureRow, rootRow)
  {
    hide ViewAt, InStep, SameEnd;
    var path := closureRow.path;
    if path == [] || rootRow.path != path || OwnerOf(g, closureRow.view) != OwnerOf(g, rootRow.view) {
      return false;
    }
    var same, c, r := FollowBoth(g, closure, root, path);
    paired := same && c == closureRow.view && r == rootRow.view && SameEnd(g, c, r, path[|path| - 1]);
  }

  // ----- the validator

  /** Everything an accepted ROOT plan promises, said of the unfolding of ROOT. */
  ghost predicate RootCertified(
    task: Task, closure: ViewId, closureRows: seq<Row>, t: Tree, rows: seq<Row>)
  {
    && |rows| == |closureRows|
    && |PathSet(RowPaths(rows))| == |rows|
    && Enumerable(task, t)
    && PathSet(Paths(task.graph, task.keepEmpty, t)) <= PathSet(RowPaths(rows))
    && AllDemanded(task.graph, task.root, rows, true, |rows|)
    && OwnerOf(task.graph, closure) == OwnerOf(task.graph, task.root)
    && forall i | 0 <= i < |rows| ::
         PathsPaired(task.graph, closure, task.root, closureRows[i], rows[i])
  }

  /** Collects the paths of the rows; there is no result when they are not paired or not distinct. */
  method PairedPaths(closureRows: seq<Row>, rows: seq<Row>) returns (paths: Option<set<Path>>)
    requires |rows| == |closureRows|
    ensures paths.Some? <==>
      && (forall i | 0 <= i < |rows| :: rows[i].path == closureRows[i].path)
      && |PathSet(RowPaths(rows))| == |rows|
    ensures paths.Some? ==> paths.value == PathSet(RowPaths(rows))
  {
    hide PathSet;
    ghost var all := RowPaths(rows);
    var found: set<Path> := {};
    var i := 0;
    NoPaths();
    assert all[..0] == [];
    while i < |rows|
      invariant 0 <= i <= |rows|
      invariant forall k | 0 <= k < i :: rows[k].path == closureRows[k].path
      invariant found == PathSet(all[..i]) && |found| == i
    {
      if closureRows[i].path != rows[i].path {
        return None;
      }
      if rows[i].path in found {
        RefusedRow(rows, found, i);
        RepeatedPathShrinks(all, i);
        return None;
      }
      PathSetGrows(all, i);
      found := found + {rows[i].path};
      i := i + 1;
    }
    assert all[..i] == all;
    paths := Some(found);
  }

  method ValidateRootPlan(
    task: Task, closure: ViewId, closureRows: seq<Row>, rows: seq<Row>)
    returns (accepted: bool)
    requires task.root in task.graph && task.bounds.leaves == |rows|
    ensures accepted ==> HasUnfolding(task.graph, task.root)
    ensures forall t | UnfoldingOf(task.graph, Key(task.root, false), t) ::
      accepted <==> RootCertified(task, closure, closureRows, t, rows)
  {
    hide PathSet, RowAt, PathsPaired, Walk, Span, Leaves, WorkOf, AllValidNodes;
    if |closureRows| != |rows| {
      return false;
    }
    var paired := PairedPaths(closureRows, rows);
    if paired.None? {
      UnpairedPath(task.graph, closure, task.root, closureRows, rows);
      return false;
    }
    var enumeration := EnumerateLeafPaths(task.graph, task.root, task.keepEmpty, task.bounds);
    assert AllJustified(task, enumeration);
    if enumeration.Refused? || !(enumeration.paths <= paired.value) {
      return false;
    }
    var checked := CheckRows(task.graph, task.root, rows, paired.value, true);
    if !checked || OwnerOf(task.graph, closure) != OwnerOf(task.graph, task.root) {
      return false;
    }
    var i := 0;
    while i < |rows|
      invariant 0 <= i <= |rows|
      invariant forall k | 0 <= k < i :: PathsPaired(task.graph, closure, task.root, closureRows[k], rows[k])
    {
      var same := CheckPair(task.graph, closure, task.root, closureRows[i], rows[i]);
      if !same {
        return false;
      }
      i := i + 1;
    }
    accepted := true;
  }

  lemma {:induction false} UnpairedPath(
    g: Graph, closure: ViewId, root: ViewId, closureRows: seq<Row>, rows: seq<Row>)
    requires |closureRows| == |rows|
    ensures (forall i | 0 <= i < |rows| :: PathsPaired(g, closure, root, closureRows[i], rows[i])) ==>
      forall i | 0 <= i < |rows| :: rows[i].path == closureRows[i].path
  {
    forall i | 0 <= i < |rows| && PathsPaired(g, closure, root, closureRows[i], rows[i])
      ensures rows[i].path == closureRows[i].path
    {
    }
  }

  // ----- the rows beyond the ROOT leaves select nothing

  lemma {:induction false} MissingAllowsMore(g: Graph, v: ViewId, path: Path, target: ViewId)
    requires RowAt(g, v, path, target, false).Some?
    ensures RowAt(g, v, path, target, true) == RowAt(g, v, path, target, false)
    decreases |path|
  {
    if |path| > 1 {
      MissingAllowsMore(g, Refs(g, v)[path[0]].source, path[1..], target);
    }
  }

  /** A path that admits a row but leads to no leaf ends at a table without roots. */
  lemma {:induction false} ExtraTableIsEmpty(g: Graph, keepEmpty: bool, t: Tree, path: Path, target: ViewId)
    requires Unfolds(g, t) && RowAt(g, t.view, path, target, true).Some?
    requires t.local ==> |path| == 1
    ensures path in PathSet(Paths(g, keepEmpty, t)) || TableOf(g, target).roots == []
    decreases t
  {
    var own, kids := OwnPaths(g, keepEmpty, t.view), KidsPaths(g, keepEmpty, t.children);
    PathSetConcat(own, kids);
    if |path| == 1 {
      if HasLocalLeaf(g, keepEmpty, t.view) {
        assert path == [path[0]];
        if path[0] == |Refs(g, t.view)| {
          assert own[0] == path;
        }
      }
    } else {
      var i := path[0];
      ChildUnfolds(g, t, i);
      var c := t.children[i];
      ExtraTableIsEmpty(g, keepEmpty, c, path[1..], target);
      if path[1..] in PathSet(Paths(g, keepEmpty, c)) {
        ChildPathIsPath(g, keepEmpty, t.children, i, path[1..]);
        assert path == [i] + path[1..];
      }
    }
  }

  lemma {:induction false} ChildPathIsPath(g: Graph, keepEmpty: bool, kids: seq<Tree>, i: nat, path: Path)
    requires i < |kids| && path in PathSet(Paths(g, keepEmpty, kids[i]))
    ensures [i] + path in PathSet(KidsPaths(g, keepEmpty, kids))
    decreases |kids|
  {
    hide PathSet, Paths, Prefixed;
    var last := |kids| - 1;
    PathSetConcat(KidsPaths(g, keepEmpty, kids[..last]), Prefixed(last, Paths(g, keepEmpty, kids[last])));
    if i == last {
      PrefixedHas(last, Paths(g, keepEmpty, kids[last]), path);
    } else {
      ChildPathIsPath(g, keepEmpty, kids[..last], i, path);
    }
  }

  // ----- expansion does not depend on the order of rows, nor on rows without roots

  predicate NoRoots(g: Graph, row: Row) {
    TableOf(g, row.view).roots == []
  }

  lemma {:induction false} ExpandWithout(g: Graph, rows: seq<Row>, j: nat)
    requires j < |rows|
    ensures multiset(Expand(g, rows)) ==
      multiset(Expand(g, rows[..j] + rows[j + 1..])) + multiset(Expand(g, [rows[j]]))
  {
    var front, back := rows[..j], rows[j + 1..];
    assert rows == (front + [rows[j]]) + back;
    ExpandConcat(g, front + [rows[j]], back);
    ExpandConcat(g, front, [rows[j]]);
    ExpandConcat(g, front, back);
  }

  lemma {:induction false} ExpandNothing(g: Graph, rows: seq<Row>)
    requires forall i | 0 <= i < |rows| :: NoRoots(g, rows[i])
    ensures Expand(g, rows) == []
    decreases |rows|
  {
    if rows != [] {
      ExpandNothing(g, rows[..|rows| - 1]);
    }
  }

  /** The rows contain the plan, and otherwise only rows without roots. */
  ghost predicate PlanWithExtras(g: Graph, rows: seq<Row>, plan: seq<Row>) {
    && |PathSet(RowPaths(rows))| == |rows| && |PathSet(RowPaths(plan))| == |plan|
    && (forall i | 0 <= i < |plan| :: plan[i] in rows)
    && (forall i | 0 <= i < |rows| :: rows[i] in plan || NoRoots(g, rows[i]))
  }

  lemma {:induction false} DropLastRow(g: Graph, rows: seq<Row>, plan: seq<Row>, j: nat)
    requires PlanWithExtras(g, rows, plan) && plan != []
    requires j < |rows| && rows[j] == plan[|plan| - 1]
    ensures PlanWithExtras(g, rows[..j] + rows[j + 1..], plan[..|plan| - 1])
  {
    hide PathSet, NoRoots;
    DistinctPathsShrink(plan);
    RemovedPath(rows, j);
    RestHasInit(rows, plan, j);
    RestIsInitOrEmpty(g, rows, plan, j);
  }

  lemma {:induction false} RestHasInit(rows: seq<Row>, plan: seq<Row>, j: nat)
    requires plan != [] && j < |rows| && rows[j] == plan[|plan| - 1]
    requires |PathSet(RowPaths(plan))| == |plan| && forall i | 0 <= i < |plan| :: plan[i] in rows
    ensures var init, rest := plan[..|plan| - 1], rows[..j] + rows[j + 1..];
      forall i | 0 <= i < |init| :: init[i] in rest
  {
    hide PathSet;
    var init := plan[..|plan| - 1];
    var rest := rows[..j] + rows[j + 1..];
    DistinctPathsShrink(plan);
    forall i | 0 <= i < |init| ensures init[i] in rest {
      PathIsListed(init, i);
      StaysWithout(rows, j, plan[i]);
    }
  }

  lemma {:induction false} RestIsInitOrEmpty(g: Graph, rows: seq<Row>, plan: seq<Row>, j: nat)
    requires plan != [] && j < |rows| && rows[j] == plan[|plan| - 1]
    requires |PathSet(RowPaths(rows))| == |rows|
    requires forall i | 0 <= i < |rows| :: rows[i] in plan || NoRoots(g, rows[i])
    ensures var rest := rows[..j] + rows[j + 1..];
      forall i | 0 <= i < |rest| :: rest[i] in plan[..|plan| - 1] || NoRoots(g, rest[i])
  {
    hide PathSet, NoRoots;
    var rest := rows[..j] + rows[j + 1..];
    RemovedPath(rows, j);
    forall i | 0 <= i < |rest| ensures rest[i] in plan[..|plan| - 1] || NoRoots(g, rest[i]) {
      assert rest[i] == rows[if i < j then i else i + 1];
      PathIsListed(rest, i);
      StaysInit(plan, rest[i]);
    }
  }

  lemma {:induction false} StaysWithout(rows: seq<Row>, j: nat, row: Row)
    requires j < |rows| && row in rows && row != rows[j]
    ensures row in rows[..j] + rows[j + 1..]
  {
    var k :| 0 <= k < |rows| && rows[k] == row;
    assert (rows[..j] + rows[j + 1..])[if k < j then k else k - 1] == row;
  }

  lemma {:induction false} StaysInit(plan: seq<Row>, row: Row)
    requires plan != [] && row != plan[|plan| - 1]
    ensures row in plan ==> row in plan[..|plan| - 1]
  {
  }

  /** Rows that contain a plan, and otherwise only rows without roots, select what the plan selects. */
  lemma {:induction false} ExtraRowsSelectNothing(g: Graph, rows: seq<Row>, plan: seq<Row>)
    requires PlanWithExtras(g, rows, plan)
    ensures multiset(Expand(g, rows)) == multiset(Expand(g, plan))
    decreases |plan|
  {
    hide PathSet, NoRoots;
    if plan == [] {
      ExpandNothing(g, rows);
    } else {
      var init, last := plan[..|plan| - 1], plan[|plan| - 1];
      assert last in rows;
      var j :| 0 <= j < |rows| && rows[j] == last;
      DropLastRow(g, rows, plan, j);
      ExtraRowsSelectNothing(g, rows[..j] + rows[j + 1..], init);
      ExpandWithout(g, rows, j);
      ExpandConcat(g, init, [last]);
      assert plan == init + [last];
    }
  }

  lemma {:induction false} PathIsListed(rows: seq<Row>, i: nat)
    requires i < |rows|
    ensures rows[i].path in PathSet(RowPaths(rows))
  {
    assert RowPaths(rows)[i] == rows[i].path;
  }

  // ----- what an accepted ROOT plan denotes

  /** At a leaf of the unfolding no segment is missing. */
  lemma {:induction false} LeafIsNotMissing(g: Graph, keepEmpty: bool, t: Tree, path: Path, target: ViewId)
    requires Unfolds(g, t) && AllReadable(g, t)
    requires path in PathSet(Paths(g, keepEmpty, t)) && RowAt(g, t.view, path, target, true).Some?
    ensures RowAt(g, t.view, path, target, false).Some?
    decreases t
  {
    var own, kids := OwnPaths(g, keepEmpty, t.view), KidsPaths(g, keepEmpty, t.children);
    PathSetConcat(own, kids);
    if path in PathSet(kids) {
      var i, below := LeafOfChild(g, keepEmpty, t.view, t.children, path);
      ChildUnfolds(g, t, i);
      assert path[1..] == below;
      LeafIsNotMissing(g, keepEmpty, t.children[i], below, target);
      MissingAllowsMore(g, t.children[i].view, below, target);
    }
  }

  /** An accepted ROOT plan shows that ROOT has a plan of its own. */
  lemma {:induction false} AcceptedRootHasPlan(
    task: Task, closure: ViewId, closureRows: seq<Row>, t: Tree, rows: seq<Row>)
    requires RootCertified(task, closure, closureRows, t, rows)
    requires UnfoldingOf(task.graph, Key(task.root, false), t)
    ensures Rows(task.graph, task.keepEmpty, t).Some?
  {
    hide Rows, RowAt, Paths, PathSet, PathsPaired, Walk, Span, Leaves, WorkOf;
    NodesAreReadable(task.graph, t);
    if Rows(task.graph, task.keepEmpty, t).None? {
      var path := NoPlanNoClaim(task.graph, task.keepEmpty, t);
      var i := IndexOfPath(rows, path);
      LeafIsNotMissing(task.graph, task.keepEmpty, t, path, rows[i].view);
    }
  }

  /** The rows at leaf paths are the plan's rows; all other rows are bound to tables without roots. */
  lemma {:induction false} RootRowsAreThePlan(
    task: Task, closure: ViewId, closureRows: seq<Row>, t: Tree, rows: seq<Row>)
    requires RootCertified(task, closure, closureRows, t, rows)
    requires UnfoldingOf(task.graph, Key(task.root, false), t)
    ensures Rows(task.graph, task.keepEmpty, t).Some?
    ensures var plan := Rows(task.graph, task.keepEmpty, t).value;
      && (forall i | 0 <= i < |plan| :: plan[i] in rows)
      && (forall i | 0 <= i < |rows| ::
            rows[i] in plan || (NoRoots(task.graph, rows[i]) &&
              rows[i].path !in PathSet(Paths(task.graph, task.keepEmpty, t))))
  {
    hide Rows, RowAt, Paths, PathSet, PathsPaired, Walk, Span, Leaves, WorkOf;
    var g := task.graph;
    AcceptedRootHasPlan(task, closure, closureRows, t, rows);
    var plan := Rows(g, task.keepEmpty, t).value;
    NodesAreReadable(g, t);
    PlanIsDemanded(g, task.keepEmpty, t);
    PlanClaimsPaths(g, task.keepEmpty, t);
    forall i, j | 0 <= i < |rows| && 0 <= j < |plan| && rows[i].path == plan[j].path ensures rows[i] == plan[j] {
      MissingAllowsMore(g, t.view, plan[j].path, plan[j].view);
      TargetIsForced(g, t.view, rows[i].path, rows[i].view, plan[j].view, true);
    }
    forall j | 0 <= j < |plan| ensures plan[j] in rows {
      PathIsListed(plan, j);
      var i := IndexOfPath(rows, plan[j].path);
      assert rows[i] == plan[j];
    }
    forall i | 0 <= i < |rows|
      ensures rows[i] in plan || (NoRoots(g, rows[i]) && rows[i].path !in PathSet(Paths(g, task.keepEmpty, t)))
    {
      ExtraTableIsEmpty(g, task.keepEmpty, t, rows[i].path, rows[i].view);
      if rows[i].path in PathSet(RowPaths(plan)) {
        var j := IndexOfPath(plan, rows[i].path);
        assert rows[i] == plan[j];
      }
    }
  }

  /**
   Every accepted ROOT plan selects exactly what the unfolding of ROOT means, at the same
   paths and with the same renamed scopes, and each of its rows has its CLOSURE row's path
   and owner.
   */
  lemma {:induction false} RootPlanKeepsMeaning(
    task: Task, closure: ViewId, closureRows: seq<Row>, t: Tree, rows: seq<Row>)
    requires RootCertified(task, closure, closureRows, t, rows)
    requires UnfoldingOf(task.graph, Key(task.root, false), t)
    ensures multiset(Expand(task.graph, rows)) == multiset(CutMeaning(task.graph, t))
    ensures |rows| == |closureRows| && forall i | 0 <= i < |rows| ::
      && rows[i].path == closureRows[i].path
      && OwnerOf(task.graph, rows[i].view) == OwnerOf(task.graph, closureRows[i].view)
  {
    hide Rows, RowAt, Paths, PathSet, NoRoots, Expand, CutMeaning, Walk, Span, Leaves, WorkOf, Unfolds,
      InStep, AllManifestsValid, AllReadable, AllValidNodes;
    var g := task.graph;
    RootRowsAreThePlan(task, closure, closureRows, t, rows);
    NodesAreReadable(g, t);
    CutPlanKeepsMeaning(g, task.keepEmpty, t);
    PlanClaimsPaths(g, task.keepEmpty, t);
    ExtraRowsSelectNothing(g, rows, Rows(g, task.keepEmpty, t).value);
  }

  /** Where ROOT can be read completely, that is what ROOT means, INCLUDE sources read in full. */
  lemma {:induction false} CompleteRootKeepsMeaning(
    task: Task, closure: ViewId, closureRows: seq<Row>, t: Tree, rows: seq<Row>)
    requires Complete(task.graph, t) && t.view == task.root
    requires RootCertified(task, closure, closureRows, Prune(task.graph, t, false), rows)
    ensures multiset(Expand(task.graph, rows)) == multiset(Meaning(task.graph, t))
  {
    hide RootCertified, Complete, Prune, Meaning, Unfolds, CutMeaning;
    PruneUnfolds(task.graph, t, false);
    CutKeepsMeaning(task.graph, t);
    RootPlanKeepsMeaning(task, closure, closureRows, Prune(task.graph, t, false), rows);
  }

  /** Where ROOT lacks the last segment, CLOSURE's one is an overlay's delta or a composite's bridge. */
  lemma {:induction false} MissingEndIsLocal(g: Graph, closureRow: Row, rootRow: Row, closure: ViewId, root: ViewId)
    requires PathsPaired(g, closure, root, closureRow, rootRow)
    requires ValidManifest(g, closureRow.view) && ValidManifest(g, rootRow.view)
    requires RowAt(g, closure, closureRow.path, closureRow.view, false).Some?
    requires var end := closureRow.path[|closureRow.path| - 1]; RoleAt(g, rootRow.view, end).None?
    ensures var end := closureRow.path[|closureRow.path| - 1];
      RoleAt(g, closureRow.view, end) ==
        Some(if g[rootRow.view].kind.Overlay? then DeltaRole else BridgeRole)
  {
    PathEndsAtTarget(g, closure, closureRow.path, closureRow.view);
  }

  lemma {:induction false} PathEndsAtTarget(g: Graph, v: ViewId, path: Path, target: ViewId)
    requires RowAt(g, v, path, target, false).Some?
    ensures path != [] && EndsAt(g, target, path[|path| - 1], target, false)
    decreases |path|
  {
    if |path| > 1 {
      PathEndsAtTarget(g, Refs(g, v)[path[0]].source, path[1..], target);
    }
  }
}
