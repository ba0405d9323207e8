/**
 The native plan checker: it follows the path of every row through the manifests and
 recomputes the row's selector and scope-map chain from the references on the way.
 */
module PlanChecker {
  import opened Wrappers
  import opened Manifests
  import opened Unfoldings
  import opened LeafPlans
  import opened LeafPaths
  import opened Traversal
  import opened PathEnumerator

  /** What a reference must show before it is followed; full validation happens elsewhere. */
  predicate Readable(g: Graph, v: ViewId, r: Reference) {
    && v in g && r.source in g && r.source != v && r.owner == g[r.source].owner
    && (g[v].kind.Overlay? ==> !r.posting.Include?)
  }

  /**
   A container that has no local segment may still stand for one: an overlay without
   delta or a composite without bridge, when its table is empty.
   */
  predicate MissingLocal(g: Graph, v: ViewId, segment: nat) {
    && v in g && !g[v].kind.Direct? && !g[v].local
    && segment == |g[v].refs| && g[v].table == Table([], [])
  }

  /** The path ends at the target's own segment, or at its canonical absence if that is allowed. */
  predicate EndsAt(g: Graph, v: ViewId, segment: nat, target: ViewId, allowMissing: bool) {
    && v in g && v == target
    && ((segment == |g[v].refs| && g[v].local) || (allowMissing && MissingLocal(g, v, segment)))
  }

  // ----- the row a path demands

  /** The only row that may claim `path` for the table of `target`, if any may. */
  function RowAt(g: Graph, v: ViewId, path: Path, target: ViewId, allowMissing: bool): Option<Row>
    decreases |path|
  {
    if path == [] then None
    else if |path| == 1 then
      if EndsAt(g, v, path[0], target, allowMissing) then Some(Row(target, None, None, [], path)) else None
    else if path[0] >= |Refs(g, v)| then None
    else
      var r := Refs(g, v)[path[0]];
      if !Readable(g, v, r) then None
      else if r.posting.Include? && (r.source != target || |path| != 2) then None
      else
        var inner :- RowAt(g, r.source, path[1..], target, allowMissing);
        if Selects(r, target) && !Bare(inner) then None
        else Some(Row(
          target,
          if r.posting.Include? then Some(r.posting.ids) else inner.included,
          if Selects(r, target) && r.posting.Exclude? then Some(r.posting.ids) else inner.excluded,
          ExtendChain(TableOf(g, target), inner.chain, r.scopeMap),
          path))
  }

  /** Applies the maps met on the way down, innermost first, to a chain found below them. */
  function Wrap(table: Table, met: seq<ScopeMap>, chain: seq<ScopeMap>): seq<ScopeMap> {
    if met == [] then chain
    else Wrap(table, met[..|met| - 1], ExtendChain(table, chain, met[|met| - 1]))
  }

  method RetainedChain(table: Table, met: seq<ScopeMap>) returns (chain: seq<ScopeMap>)
    ensures chain == Wrap(table, met, [])
  {
    chain := [];
    var i := |met|;
    assert met[..i] == met;
    while i > 0
      invariant 0 <= i <= |met|
      invariant Wrap(table, met[..i], chain) == Wrap(table, met, [])
    {
      i := i - 1;
      assert met[..i + 1][..i] == met[..i];
      if ScopeMapApplies(table, chain, met[i]) {
        chain := chain + [met[i]];
      }
    }
  }

  /** What the rest of the path must yield for the whole path to demand a row. */
  ghost predicate Demands(
    g: Graph, row: Row, whole: Option<Row>, rest: Option<Row>, included: Option<seq<nat>>,
    excluded: Option<seq<nat>>, met: seq<ScopeMap>)
  {
    if rest.None? || ((included.Some? || excluded.Some?) && !Bare(rest.value)) then whole.None?
    else whole == Some(Row(
      row.view,
      if included.Some? then included else rest.value.included,
      if excluded.Some? then excluded else rest.value.excluded,
      Wrap(TableOf(g, row.view), met, rest.value.chain),
      row.path))
  }

  /** Accepts a row exactly when it is the row its path demands. */
  method CheckRow(g: Graph, root: ViewId, row: Row, allowMissing: bool) returns (accepted: bool)
    requires row.path != []
    ensures accepted <==> RowAt(g, root, row.path, row.view, allowMissing) == Some(row)
  {
    var current := root;
    var included: Option<seq<nat>>, excluded: Option<seq<nat>> := None, None;
    var met: seq<ScopeMap> := [];
    var i := 0;
    ghost var whole := RowAt(g, root, row.path, row.view, allowMissing);
    assert row.path[0..] == row.path;
    while i < |row.path| - 1
      invariant 0 <= i <= |row.path| - 1
      invariant included.None? || excluded.None?
      invariant Demands(g, row, whole, RowAt(g, current, row.path[i..], row.view, allowMissing),
                  included, excluded, met)
    {
      var segment := row.path[i];
      assert row.path[i..][0] == segment && row.path[i..][1..] == row.path[i + 1..];
      if segment >= |Refs(g, current)| || !Readable(g, current, Refs(g, current)[segment]) {
        return false;
      }
      var r := Refs(g, current)[segment];
      if r.posting.Include? {
        if r.source != row.view || i + 2 != |row.path| {
          return false;
        }
        if included.Some? || excluded.Some? {
          SecondSelectorFails(g, current, row.path[i..], row.view, allowMissing);
          return false;
        }
      } else if r.posting.Exclude? && r.source == row.view {
        if included.Some? || excluded.Some? {
          SecondSelectorFails(g, current, row.path[i..], row.view, allowMissing);
          return false;
        }
      }
      StepDemands(g, row, whole, current, row.path[i..], allowMissing, included, excluded, met);
      if r.posting.Include? {
        included := Some(r.posting.ids);
      } else if r.posting.Exclude? && r.source == row.view {
        excluded := Some(r.posting.ids);
      }
      if r.scopeMap != [] {
        met := met + [r.scopeMap];
      }
      current := r.source;
      i := i + 1;
    }
    if !EndsAt(g, current, row.path[i], row.view, allowMissing) {
      return false;
    }
    var chain := RetainedChain(TableOf(g, row.view), met);
    accepted := row.included == included && row.excluded == excluded && row.chain == chain;
  }

  lemma {:induction false} SecondSelectorFails(
    g: Graph, v: ViewId, path: Path, target: ViewId, allowMissing: bool)
    requires |path| > 1 && path[0] < |Refs(g, v)| && Selects(Refs(g, v)[path[0]], target)
    ensures var row := RowAt(g, v, path, target, allowMissing); row.Some? ==> !Bare(row.value)
  {
  }

  lemma {:induction false} WrapMore(table: Table, met: seq<ScopeMap>, m: ScopeMap, chain: seq<ScopeMap>)
    ensures Wrap(table, met + [m], chain) == Wrap(table, met, ExtendChain(table, chain, m))
  {
    assert (met + [m])[..|met|] == met;
  }

  lemma {:induction false} StepDemands(
    g: Graph, row: Row, whole: Option<Row>, v: ViewId, path: Path, allowMissing: bool,
    included: Option<seq<nat>>, excluded: Option<seq<nat>>, met: seq<ScopeMap>)
    requires |path| > 1 && path[0] < |Refs(g, v)|
    requires Demands(g, row, whole, RowAt(g, v, path, row.view, allowMissing), included, excluded, met)
    requires var r := Refs(g, v)[path[0]];
      && Readable(g, v, r)
      && (r.posting.Include? ==> r.source == row.view && |path| == 2)
      && (Selects(r, row.view) ==> included.None? && excluded.None?)
    ensures var r := Refs(g, v)[path[0]];
      Demands(g, row, whole, RowAt(g, r.source, path[1..], row.view, allowMissing),
        if r.posting.Include? then Some(r.posting.ids) else included,
        if Selects(r, row.view) && r.posting.Exclude? then Some(r.posting.ids) else excluded,
        if r.scopeMap != [] then met + [r.scopeMap] else met)
  {
    var r := Refs(g, v)[path[0]];
    var rest := RowAt(g, r.source, path[1..], row.view, allowMissing);
    if rest.Some? {
      WrapMore(TableOf(g, row.view), met, r.scopeMap, rest.value.chain);
    }
  }

  // ----- the rows of a plan are the rows their paths demand

  ghost predicate RowsDemanded(g: Graph, v: ViewId, rows: seq<Row>) {
    AllDemanded(g, v, rows, false, |rows|)
  }

  lemma {:induction false} StemIsDemanded(g: Graph, v: ViewId, segment: nat, rows: seq<Row>, row: Row)
    requires segment < |Refs(g, v)| && Readable(g, v, Refs(g, v)[segment])
    requires RowsDemanded(g, Refs(g, v)[segment].source, rows)
    requires Refs(g, v)[segment].posting.Include? ==> forall i | 0 <= i < |rows| :: |rows[i].path| == 1
    requires Stems(g, Refs(g, v)[segment], segment, rows, row)
    ensures RowAt(g, v, row.path, row.view, false) == Some(row)
  {
    var r := Refs(g, v)[segment];
    var i :| 0 <= i < |rows|
      && row == ReferredRow(g, r, segment, rows[i])
      && (r.posting.Include? ==> rows[i].view == r.source)
      && (Selects(r, rows[i].view) ==> Bare(rows[i]));
    assert row.path[1..] == rows[i].path;
    assert rows[i].path != [];
  }

  /** The views of an unfolding can all be read. */
  ghost predicate AllReadable(g: Graph, t: Tree)
    decreases t
  {
    && ReadableView(g, t.view)
    && forall i | 0 <= i < |t.children| :: AllReadable(g, t.children[i])
  }

  predicate ReadableView(g: Graph, v: ViewId) {
    && v in g && (g[v].kind.Direct? ==> g[v].local)
    && forall i | 0 <= i < |g[v].refs| :: Readable(g, v, g[v].refs[i])
  }

  lemma {:induction false} ValidIsReadable(g: Graph, t: Tree)
    requires AllManifestsValid(g, t)
    ensures AllReadable(g, t)
    decreases t
  {
    RootIsKey(t);
    assert ValidManifest(g, t.view);
    forall i | 0 <= i < |t.children| ensures AllReadable(g, t.children[i]) {
      KeysOfChild(t, i);
      ValidIsReadable(g, t.children[i]);
    }
  }

  lemma {:induction false} PlanIsDemanded(g: Graph, keepEmpty: bool, t: Tree)
    requires Unfolds(g, t) && AllReadable(g, t) && Rows(g, keepEmpty, t).Some?
    ensures RowsDemanded(g, t.view, Rows(g, keepEmpty, t).value)
    decreases t
  {
    KidsPlanIsDemanded(g, keepEmpty, t, t.children);
  }

  lemma {:induction false} KidsPlanIsDemanded(g: Graph, keepEmpty: bool, t: Tree, kids: seq<Tree>)
    requires KidsUnfold(g, t.view, kids) && kids <= t.children && AllReadable(g, t)
    requires KidsRows(g, keepEmpty, t.view, kids).Some?
    ensures RowsDemanded(g, t.view, KidsRows(g, keepEmpty, t.view, kids).value)
    decreases kids
  {
    if kids != [] {
      var last := |kids| - 1;
      assert t.children[last] == kids[last];
      KidsPlanIsDemanded(g, keepEmpty, t, kids[..last]);
      PlanIsDemanded(g, keepEmpty, kids[last]);
      ChildPlanIsDemanded(g, keepEmpty, t.view, kids[last], last);
    }
  }

  lemma {:induction false} ChildPlanIsDemanded(g: Graph, keepEmpty: bool, v: ViewId, c: Tree, segment: nat)
    requires ReadableView(g, v) && segment < |Refs(g, v)|
    requires UnfoldingOf(g, ChildKey(Refs(g, v)[segment]), c) && Rows(g, keepEmpty, c).Some?
    requires RowsDemanded(g, c.view, Rows(g, keepEmpty, c).value)
    ensures var applied := ApplyReference(g, Refs(g, v)[segment], segment, Rows(g, keepEmpty, c).value);
      applied.Some? ==> RowsDemanded(g, v, applied.value)
  {
    var r := Refs(g, v)[segment];
    var rows := Rows(g, keepEmpty, c).value;
    var applied := ApplyReference(g, r, segment, rows);
    if c.local {
      LocalRows(g, keepEmpty, c);
    }
    if applied.Some? {
      forall k | 0 <= k < |applied.value|
        ensures RowAt(g, v, applied.value[k].path, applied.value[k].view, false) == Some(applied.value[k])
      {
        ReferredRowsStem(g, r, segment, rows, k);
        StemIsDemanded(g, v, segment, rows, applied.value[k]);
      }
    }
  }

  // ----- without a plan, some path admits no row at all

  /** A path leads to one table only. */
  lemma {:induction false} TargetIsForced(g: Graph, v: ViewId, path: Path, a: ViewId, b: ViewId, allowMissing: bool)
    requires RowAt(g, v, path, a, allowMissing).Some? && RowAt(g, v, path, b, allowMissing).Some?
    ensures a == b
    decreases |path|
  {
    if |path| > 1 {
      TargetIsForced(g, Refs(g, v)[path[0]].source, path[1..], a, b, allowMissing);
    }
  }

  ghost predicate Unclaimable(g: Graph, v: ViewId, path: Path) {
    forall target :: RowAt(g, v, path, target, false).None?
  }

  lemma {:induction false} SelectorConflict(rows: seq<Row>, source: ViewId, posting: Posting) returns (i: nat)
    requires ApplyPostings(rows, source, posting).None?
    ensures i < |rows| && rows[i].view == source && !Bare(rows[i]) && !posting.All?
    decreases |rows|
  {
    var init := rows[..|rows| - 1];
    if ApplyPostings(init, source, posting).None? {
      i := SelectorConflict(init, source, posting);
    } else {
      i := |rows| - 1;
    }
  }

  lemma {:induction false} NoPlanNoClaim(g: Graph, keepEmpty: bool, t: Tree) returns (path: Path)
    requires Unfolds(g, t) && AllReadable(g, t) && Rows(g, keepEmpty, t).None?
    ensures path in PathSet(Paths(g, keepEmpty, t)) && Unclaimable(g, t.view, path)
    decreases t
  {
    path := NoKidsPlanNoClaim(g, keepEmpty, t, t.children);
    PathSetConcat(OwnPaths(g, keepEmpty, t.view), KidsPaths(g, keepEmpty, t.children));
  }

  lemma {:induction false} NoKidsPlanNoClaim(g: Graph, keepEmpty: bool, t: Tree, kids: seq<Tree>)
    returns (path: Path)
    requires KidsUnfold(g, t.view, kids) && kids <= t.children && AllReadable(g, t)
    requires KidsRows(g, keepEmpty, t.view, kids).None?
    ensures path in PathSet(KidsPaths(g, keepEmpty, kids)) && Unclaimable(g, t.view, path)
    decreases kids
  {
    var last := |kids| - 1;
    var c := kids[last];
    assert t.children[last] == c;
    var childPaths := Paths(g, keepEmpty, c);
    PathSetConcat(KidsPaths(g, keepEmpty, kids[..last]), Prefixed(last, childPaths));
    if KidsRows(g, keepEmpty, t.view, kids[..last]).None? {
      path := NoKidsPlanNoClaim(g, keepEmpty, t, kids[..last]);
    } else {
      var below: Path;
      if Rows(g, keepEmpty, c).None? {
        below := NoPlanNoClaim(g, keepEmpty, c);
        PathsArePrefixFree(g, keepEmpty, c);
        UnclaimableAbove(g, t.view, last, below);
      } else {
        PlanIsDemanded(g, keepEmpty, c);
        below := ConflictIsUnclaimable(g, keepEmpty, t.view, last, c);
      }
      path := [last] + below;
      PrefixedHas(last, childPaths, below);
    }
  }

  lemma {:induction false} PrefixedHas(segment: nat, paths: seq<Path>, path: Path)
    requires path in PathSet(paths)
    ensures [segment] + path in PathSet(Prefixed(segment, paths))
  {
    var i :| 0 <= i < |paths| && paths[i] == path;
    assert Prefixed(segment, paths)[i] == [segment] + path;
  }

  lemma {:induction false} UnclaimableAbove(g: Graph, v: ViewId, segment: nat, path: Path)
    requires segment < |Refs(g, v)| && Unclaimable(g, Refs(g, v)[segment].source, path)
    requires path != []
    ensures Unclaimable(g, v, [segment] + path)
  {
    var longer := [segment] + path;
    assert longer[1..] == path;
    forall target ensures RowAt(g, v, longer, target, false).None? {
      assert RowAt(g, Refs(g, v)[segment].source, path, target, false).None?;
    }
  }

  lemma {:induction false} ConflictIsUnclaimable(g: Graph, keepEmpty: bool, v: ViewId, segment: nat, c: Tree)
    returns (path: Path)
    requires segment < |Refs(g, v)| && UnfoldingOf(g, ChildKey(Refs(g, v)[segment]), c)
    requires Rows(g, keepEmpty, c).Some? && RowsDemanded(g, c.view, Rows(g, keepEmpty, c).value)
    requires ApplyReference(g, Refs(g, v)[segment], segment, Rows(g, keepEmpty, c).value).None?
    ensures path != [] && path in PathSet(Paths(g, keepEmpty, c)) && Unclaimable(g, v, [segment] + path)
  {
    var r := Refs(g, v)[segment];
    var rows := Rows(g, keepEmpty, c).value;
    var i := SelectorConflict(ApplyScopeMap(g, rows, r.scopeMap), r.source, r.posting);
    path := rows[i].path;
    assert RowAt(g, r.source, path, rows[i].view, false) == Some(rows[i]);
    PlanHasPaths(g, keepEmpty, c);
    assert RowPaths(rows)[i] == path;
    var longer := [segment] + path;
    assert longer[1..] == path;
    forall target ensures RowAt(g, v, longer, target, false).None? {
      if RowAt(g, v, longer, target, false).Some? {
        TargetIsForced(g, r.source, path, target, rows[i].view, false);
      }
    }
  }

  // ----- same paths, same rows

  lemma {:induction false} DistinctPathsShrink(rows: seq<Row>)
    requires rows != [] && |PathSet(RowPaths(rows))| == |rows|
    ensures var init, last := rows[..|rows| - 1], rows[|rows| - 1];
      && |PathSet(RowPaths(init))| == |init|
      && last.path !in PathSet(RowPaths(init))
      && PathSet(RowPaths(rows)) == PathSet(RowPaths(init)) + {last.path}
  {
    var init, last := rows[..|rows| - 1], rows[|rows| - 1];
    var paths := RowPaths(rows);
    assert paths[..|rows| - 1] == RowPaths(init);
    assert paths[..|rows|] == paths;
    PathSetGrows(paths, |rows| - 1);
    PathSetIsSmall(RowPaths(init));
  }

  lemma {:induction false} SamePathsSameRows(a: seq<Row>, b: seq<Row>)
    requires |PathSet(RowPaths(a))| == |a| && |PathSet(RowPaths(b))| == |b|
    requires PathSet(RowPaths(a)) == PathSet(RowPaths(b))
    requires forall i, j | 0 <= i < |a| && 0 <= j < |b| && a[i].path == b[j].path :: a[i] == b[j]
    ensures multiset(a) == multiset(b)
    decreases |a|
  {
    hide PathSet;
    if a != [] {
      var init, last := a[..|a| - 1], a[|a| - 1];
      DistinctPathsShrink(a);
      var j := IndexOfPath(b, last.path);
      var rest := b[..j] + b[j + 1..];
      RemovedPath(b, j);
      forall i, k | 0 <= i < |init| && 0 <= k < |rest| && init[i].path == rest[k].path
        ensures init[i] == rest[k]
      {
        assert a[i] == init[i];
        assert rest[k] == if k < j then b[k] else b[k + 1];
      }
      SamePathsSameRows(init, rest);
      RemovedRow(b, j);
      assert a == init + [last];
    }
  }

  lemma {:induction false} IndexOfPath(rows: seq<Row>, path: Path) returns (i: nat)
    requires path in PathSet(RowPaths(rows))
    ensures i < |rows| && rows[i].path == path
  {
    i :| 0 <= i < |RowPaths(rows)| && RowPaths(rows)[i] == path;
  }

  lemma {:induction false} RemovedRow(b: seq<Row>, j: nat)
    requires j < |b|
    ensures multiset(b) == multiset(b[..j] + b[j + 1..]) + multiset{b[j]}
  {
    assert b == b[..j] + [b[j]] + b[j + 1..];
  }

  lemma {:induction false} OneLess(all: set<Path>, some: set<Path>, path: Path)
    requires some <= all <= some + {path} && |some| < |all|
    ensures path !in some && |some| + 1 == |all| && some == all - {path}
  {
    SubsetIsSmall(all, some + {path});
    assert path in all ==> all == some + {path};
    assert path !in all ==> all == some;
  }

  lemma {:induction false} RemovedPathsWithin(b: seq<Row>, j: nat)
    requires j < |b|
    ensures var all, some := PathSet(RowPaths(b)), PathSet(RowPaths(b[..j] + b[j + 1..]));
      some <= all <= some + {b[j].path}
  {
    var rest := b[..j] + b[j + 1..];
    var all, some := PathSet(RowPaths(b)), PathSet(RowPaths(rest));
    forall k | 0 <= k < |b| ensures RowPaths(b)[k] in some + {b[j].path} {
      if k != j {
        assert RowPaths(rest)[if k < j then k else k - 1] == RowPaths(b)[k];
      }
    }
    forall k | 0 <= k < |rest| ensures RowPaths(rest)[k] in all {
      assert RowPaths(rest)[k] == RowPaths(b)[if k < j then k else k + 1];
    }
  }

  lemma {:induction false} RemovedPath(b: seq<Row>, j: nat)
    requires j < |b| && |PathSet(RowPaths(b))| == |b|
    ensures var rest := b[..j] + b[j + 1..];
      && |PathSet(RowPaths(rest))| == |rest|
      && PathSet(RowPaths(rest)) == PathSet(RowPaths(b)) - {b[j].path}
  {
    hide PathSet;
    var rest := b[..j] + b[j + 1..];
    RemovedPathsWithin(b, j);
    PathSetIsSmall(RowPaths(rest));
    OneLess(PathSet(RowPaths(b)), PathSet(RowPaths(rest)), b[j].path);
  }

  lemma {:induction false} SameRowsSamePaths(a: seq<Row>, b: seq<Row>)
    requires multiset(a) == multiset(b)
    ensures |a| == |b| && PathSet(RowPaths(a)) <= PathSet(RowPaths(b))
  {
    assert |multiset(a)| == |a| && |multiset(b)| == |b|;
    forall i | 0 <= i < |a| ensures RowPaths(a)[i] in PathSet(RowPaths(b)) {
      assert a[i] in multiset(a);
      assert a[i] in b;
      var j :| 0 <= j < |b| && b[j] == a[i];
      assert RowPaths(b)[j] == RowPaths(a)[i];
    }
  }

  // ----- the whole plan

  /** Every row claims its own path, and the rows claim all the paths there are. */
  ghost predicate Claims(g: Graph, root: ViewId, rows: seq<Row>, paths: set<Path>) {
    && |PathSet(RowPaths(rows))| == |rows|
    && PathSet(RowPaths(rows)) == paths
    && RowsDemanded(g, root, rows)
  }

  /** The rows claim every path of an unfolding exactly when they are its plan, in any order. */
  lemma {:induction false} ClaimsIffPlan(g: Graph, keepEmpty: bool, t: Tree, rows: seq<Row>)
    requires Unfolds(g, t) && AllReadable(g, t)
    ensures Claims(g, t.view, rows, PathSet(Paths(g, keepEmpty, t))) <==>
      Rows(g, keepEmpty, t).Some? && multiset(rows) == multiset(Rows(g, keepEmpty, t).value)
  {
    hide Rows, RowAt, Paths;
    if Rows(g, keepEmpty, t).None? {
      var path := NoPlanNoClaim(g, keepEmpty, t);
      UnclaimedPath(g, t.view, rows, PathSet(Paths(g, keepEmpty, t)), path);
    } else {
      var plan := Rows(g, keepEmpty, t).value;
      PlanIsDemanded(g, keepEmpty, t);
      PlanClaimsPaths(g, keepEmpty, t);
      if Claims(g, t.view, rows, PathSet(Paths(g, keepEmpty, t))) {
        ClaimantsAgree(g, t.view, rows, plan);
        SamePathsSameRows(rows, plan);
      }
      if multiset(rows) == multiset(plan) {
        SameRowsSamePaths(rows, plan);
        SameRowsSamePaths(plan, rows);
        SameRowsDemanded(g, t.view, rows, plan);
        assert PathSet(RowPaths(rows)) == PathSet(RowPaths(plan));
      }
    }
  }

  lemma {:induction false} UnclaimedPath(g: Graph, v: ViewId, rows: seq<Row>, paths: set<Path>, path: Path)
    requires path in paths && Unclaimable(g, v, path)
    ensures !Claims(g, v, rows, paths)
  {
    if Claims(g, v, rows, paths) {
      var i := IndexOfPath(rows, path);
    }
  }

  lemma {:induction false} SameRowsDemanded(g: Graph, v: ViewId, rows: seq<Row>, plan: seq<Row>)
    requires multiset(rows) == multiset(plan) && RowsDemanded(g, v, plan)
    ensures RowsDemanded(g, v, rows)
  {
    forall i | 0 <= i < |rows|
      ensures RowAt(g, v, rows[i].path, rows[i].view, false) == Some(rows[i])
    {
      assert rows[i] in multiset(rows);
      assert rows[i] in plan;
    }
  }

  lemma {:induction false} PlanClaimsPaths(g: Graph, keepEmpty: bool, t: Tree)
    requires Unfolds(g, t) && Rows(g, keepEmpty, t).Some?
    ensures var plan := Rows(g, keepEmpty, t).value;
      |PathSet(RowPaths(plan))| == |plan| && PathSet(RowPaths(plan)) == PathSet(Paths(g, keepEmpty, t))
  {
    PlanHasPaths(g, keepEmpty, t);
    PathsArePrefixFree(g, keepEmpty, t);
    PrefixFreeIsInjective(Paths(g, keepEmpty, t));
    PathPerLeaf(g, keepEmpty, t);
    RowsPerLeaf(g, keepEmpty, t);
  }

  lemma {:induction false} ClaimantsAgree(g: Graph, v: ViewId, a: seq<Row>, b: seq<Row>)
    requires RowsDemanded(g, v, a) && RowsDemanded(g, v, b)
    ensures forall i, j | 0 <= i < |a| && 0 <= j < |b| && a[i].path == b[j].path :: a[i] == b[j]
  {
    forall i, j | 0 <= i < |a| && 0 <= j < |b| && a[i].path == b[j].path ensures a[i] == b[j] {
      TargetIsForced(g, v, a[i].path, a[i].view, b[j].view, false);
    }
  }

  // ----- the code

  ghost predicate AllDemanded(g: Graph, root: ViewId, rows: seq<Row>, allowMissing: bool, n: nat)
    requires n <= |rows|
  {
    forall i | 0 <= i < n :: RowAt(g, root, rows[i].path, rows[i].view, allowMissing) == Some(rows[i])
  }

  /** Checks the rows one by one, crossing their paths off. */
  method CheckRows(g: Graph, root: ViewId, rows: seq<Row>, expected: set<Path>, allowMissing: bool)
    returns (accepted: bool)
    ensures accepted <==>
      && |PathSet(RowPaths(rows))| == |rows|
      && PathSet(RowPaths(rows)) == expected
      && AllDemanded(g, root, rows, allowMissing, |rows|)
  {
    hide RowAt, PathSet;
    var remaining := expected;
    var i := 0;
    ghost var paths := RowPaths(rows);
    NoPaths();
    assert paths[..0] == [];
    while i < |rows|
      invariant 0 <= i <= |rows|
      invariant |PathSet(paths[..i])| == i && PathSet(paths[..i]) <= expected
      invariant remaining == expected - PathSet(paths[..i])
      invariant AllDemanded(g, root, rows, allowMissing, i)
    {
      PathSetGrows(paths, i);
      if rows[i].path !in remaining {
        RefusedRow(rows, expected, i);
        return false;
      }
      remaining := remaining - {rows[i].path};
      var fits := false;
      if rows[i].path != [] {
        fits := CheckRow(g, root, rows[i], allowMissing);
      } else {
        NoRowAtNoPath(g, root, rows[i], allowMissing);
      }
      if !fits {
        return false;
      }
      i := i + 1;
    }
    assert paths[..i] == paths;
    accepted := remaining == {};
  }

  lemma {:induction false} NoPaths()
    ensures PathSet([]) == {}
  {
  }

  lemma {:induction false} NoRowAtNoPath(g: Graph, root: ViewId, row: Row, allowMissing: bool)
    requires row.path == []
    ensures RowAt(g, root, row.path, row.view, allowMissing).None?
  {
  }

  lemma {:induction false} RefusedRow(rows: seq<Row>, expected: set<Path>, i: nat)
    requires i < |rows|
    requires rows[i].path !in expected || rows[i].path in PathSet(RowPaths(rows)[..i])
    ensures PathSet(RowPaths(rows)) != expected || |PathSet(RowPaths(rows))| < |rows|
  {
    assert RowPaths(rows)[i] in PathSet(RowPaths(rows));
    if rows[i].path in PathSet(RowPaths(rows)[..i]) {
      RepeatedPathShrinks(RowPaths(rows), i);
    }
  }

  /** Everything an accepted plan promises, said of the unfolding alone. */
  ghost predicate Certified(task: Task, t: Tree, rows: seq<Row>)
    requires Unfolds(task.graph, t)
  {
    && |rows| >= 2
    && Enumerable(task, t)
    && Rows(task.graph, task.keepEmpty, t).Some?
    && multiset(rows) == multiset(Rows(task.graph, task.keepEmpty, t).value)
  }

  /**
   Validates a leaf plan against its manifest; the number of rows is the leaf limit.
   The result is the validation work, and there is none when the plan is refused.
   */
  method ValidateLeafPlan(g: Graph, root: ViewId, keepEmpty: bool, maxWork: nat, maxDepth: nat, rows: seq<Row>)
    returns (work: Option<nat>)
    requires root in g
    ensures work.Some? ==> HasUnfolding(g, root)
    ensures forall t | UnfoldingOf(g, Key(root, false), t) ::
      (work.Some? <==> Certified(Task(g, root, keepEmpty, Bounds(maxWork, maxDepth, |rows|)), t, rows))
      && (work.Some? ==> work.value == WorkOf(g, Views(t)))
  {
    if |rows| < 2 {
      return None;
    }
    var task := Task(g, root, keepEmpty, Bounds(maxWork, maxDepth, |rows|));
    var enumeration := EnumerateLeafPaths(g, root, keepEmpty, task.bounds);
    if enumeration.Refused? {
      RefusedIsNotCertified(task, enumeration, rows);
      return None;
    }
    var accepted := CheckRows(g, root, rows, enumeration.paths, false);
    EnumeratedClaims(task, enumeration, rows);
    work := if accepted then Some(enumeration.work) else None;
  }

  lemma {:induction false} RefusedIsNotCertified(task: Task, e: Enumeration, rows: seq<Row>)
    requires AllJustified(task, e) && e.Refused?
    ensures forall t | UnfoldingOf(task.graph, Key(task.root, false), t) :: !Certified(task, t, rows)
  {
    hide Rows, Walk, Span, Leaves, WorkOf, AllValidNodes;
  }

  lemma {:induction false} EnumeratedClaims(task: Task, e: Enumeration, rows: seq<Row>)
    requires AllJustified(task, e) && e.Enumerated? && |rows| >= 2
    ensures forall t | UnfoldingOf(task.graph, Key(task.root, false), t) ::
      (Claims(task.graph, task.root, rows, e.paths) <==> Certified(task, t, rows))
      && e.work == WorkOf(task.graph, Views(t))
  {
    hide Walk, Span, Leaves, WorkOf, Claims;
    forall t | UnfoldingOf(task.graph, Key(task.root, false), t)
      ensures (Claims(task.graph, task.root, rows, e.paths) <==> Certified(task, t, rows))
        && e.work == WorkOf(task.graph, Views(t))
    {
      assert Justified(task, t, e);
      NodesAreReadable(task.graph, t);
      ClaimsIffPlan(task.graph, task.keepEmpty, t, rows);
    }
  }

  lemma {:induction false} NodesAreReadable(g: Graph, t: Tree)
    requires AllValidNodes(g, t)
    ensures AllReadable(g, t) && AllManifestsValid(g, t)
  {
    assert forall v | v in Views(t) :: ValidNode(g, v);
    ValidIsReadable(g, t);
  }
}
