/** What the resolver, the meaning and the checker say about each other. */
module PlanTheorems {
  import opened Wrappers
  import opened Manifests
  import opened Unfoldings
  import opened Cycles
  import opened LeafPlans
  import opened LeafPaths
  import opened Traversal
  import opened Parts
  import opened BackReferences
  import opened PlanMeaning
  import LeafResolver
  import PathEnumerator
  import PlanChecker
  import RootPlan

  // ----- complete unfoldings and reference cycles

  /** The same graph with every INCLUDE reference read as one that is followed down. */
  function Opened(g: Graph): Graph {
    map v | v in g :: g[v].(refs := OpenedRefs(g[v].refs))
  }

  function OpenedRefs(refs: seq<Reference>): (all: seq<Reference>)
    ensures |all| == |refs|
    ensures forall i | 0 <= i < |refs| :: all[i] == refs[i].(posting := All)
  {
    if refs == [] then [] else
      OpenedRefs(refs[..|refs| - 1]) + [refs[|refs| - 1].(posting := All)]
  }

  lemma {:induction false} CompleteIsUnfolding(g: Graph, t: Tree)
    ensures Complete(g, t) <==> UnfoldingOf(Opened(g), Key(t.view, false), t)
    decreases t
  {
    forall i | 0 <= i < |t.children|
      ensures Complete(g, t.children[i]) <==> UnfoldingOf(Opened(g), Key(t.children[i].view, false), t.children[i])
    {
      CompleteIsUnfolding(g, t.children[i]);
    }
    if UnfoldingOf(Opened(g), Key(t.view, false), t) {
      forall i | 0 <= i < |t.children|
        ensures t.children[i].view == Refs(g, t.view)[i].source && Complete(g, t.children[i])
      {
        ChildUnfolds(Opened(g), t, i);
      }
    }
    if Complete(g, t) {
      assert KidsUnfold(Opened(g), t.view, t.children);
    }
  }

  lemma {:induction false} OpenedDescends(g: Graph, u: ViewId, v: ViewId)
    ensures Descends(Opened(g), u, v) <==> RefersTo(g, u, v)
  {
    var refs, all := Refs(g, u), Refs(Opened(g), u);
    assert forall i | 0 <= i < |refs| :: all[i].source == refs[i].source && !all[i].posting.Include?;
  }

  lemma {:induction false} OpenedPaths(g: Graph, p: seq<ViewId>)
    ensures DescentPath(Opened(g), p) <==> ReferencePath(g, p)
  {
    forall i | 0 <= i < |p| - 1 ensures Descends(Opened(g), p[i], p[i + 1]) <==> RefersTo(g, p[i], p[i + 1]) {
      OpenedDescends(g, p[i], p[i + 1]);
    }
  }

  /** A view can be read completely exactly when no view repeats on its reference paths. */
  lemma {:induction false} CompleteIffAcyclic(g: Graph, root: ViewId)
    ensures (exists t :: Complete(g, t) && t.view == root) <==>
      Closed(Opened(g), root) && NoReferenceCycle(g, root)
  {
    UnfoldingIffAcyclic(Opened(g), root);
    forall p ensures DescentPath(Opened(g), p) <==> ReferencePath(g, p) {
      OpenedPaths(g, p);
    }
    assert NoDescentCycle(Opened(g), root) <==> NoReferenceCycle(g, root);
    if t :| Complete(g, t) && t.view == root {
      CompleteIsUnfolding(g, t);
    }
    if t :| UnfoldingOf(Opened(g), Key(root, false), t) {
      CompleteIsUnfolding(g, t);
    }
  }

  lemma {:induction false} CompleteHasNoRepeat(g: Graph, t: Tree)
    requires Complete(g, t)
    ensures NoRepeat(t, {})
  {
    CompleteIffAcyclic(g, t.view);
    CompleteIsUnfolding(g, t);
    assert NoReferenceCycle(Opened(g), t.view) by {
      forall p | ReferencePath(Opened(g), p) && p[0] == t.view ensures Distinct(p) {
        assert ReferencePath(g, p) by {
          forall i | 0 <= i < |p| - 1 ensures RefersTo(g, p[i], p[i + 1]) {
            OpenedRefers(g, p[i], p[i + 1]);
          }
        }
      }
    }
    AcyclicHasNoRepeat(Opened(g), t.view, t);
  }

  lemma {:induction false} OpenedRefers(g: Graph, u: ViewId, v: ViewId)
    ensures RefersTo(Opened(g), u, v) <==> RefersTo(g, u, v)
  {
    var refs, all := Refs(g, u), Refs(Opened(g), u);
    assert forall i | 0 <= i < |refs| :: all[i].source == refs[i].source;
  }

  // ----- the resolver on acyclic graphs

  predicate WithinLimits(limits: Limits, work: nat, depth: nat, leaves: nat) {
    !Exceeds(limits.work, work) && !Exceeds(limits.depth, depth) && !Exceeds(limits.members, leaves)
  }

  /**
   On a valid graph without reference cycles the resolver yields a plan exactly when
   the view has at least two leaves and stays within its limits, and the plan selects
   exactly the roots that the view means.
   */
  lemma {:induction false} AcyclicPlan(task: LeafResolver.Task, result: LeafResolver.PlanResult, t: Tree)
    requires LeafResolver.AllJustified(task, result)
    requires Complete(task.graph, t) && t.view == task.root && AllViewsValid(task.graph, t)
    ensures var pruned := Prune(task.graph, t, false);
      var leaves := Leaves(task.graph, task.keepEmpty, pruned);
      && UnfoldingOf(task.graph, Key(task.root, false), pruned)
      && (result.Planned? <==>
            leaves >= 2 && WithinLimits(task.limits, WorkOf(task.graph, Views(pruned)),
                                        Span(task.graph, pruned), leaves))
      && (result.Planned? ==>
            Expand(task.graph, result.rows) == Meaning(task.graph, t) && |result.rows| == leaves)
      && result != LeafResolver.Rejected(LeafResolver.CyclicGraph)
      && result != LeafResolver.Rejected(LeafResolver.InvalidView)
  {
    hide Walk, Rows, Span, Leaves, Expand, Meaning, WorkOf, Prune, Complete, AllViewsValid, Unfolds, NoRepeat;
    var g := task.graph;
    var pruned := Prune(g, t, false);
    CompleteHasNoRepeat(g, t);
    PlanKeepsMeaning(g, task.keepEmpty, t, {});
    PruneUnfolds(g, t, false);
    PruneKeepsNoRepeat(g, t, false, {});
    WalkWithoutRepeats(pruned, {}, {}, false);
    PrunedViews(g, t, false);
    RowsPerLeaf(g, task.keepEmpty, pruned);
    assert LeafResolver.Justified(g, task.keepEmpty, task.limits, pruned, result);
  }

  /**
   Whatever views repeat: a plan that the resolver returns selects exactly the roots that
   the view means, read off the unfolding cut below INCLUDE.
   */
  lemma {:induction false} EveryPlanKeepsMeaning(task: LeafResolver.Task, result: LeafResolver.PlanResult, t: Tree)
    requires LeafResolver.AllJustified(task, result) && result.Planned?
    requires UnfoldingOf(task.graph, Key(task.root, false), t)
    ensures Expand(task.graph, result.rows) == CutMeaning(task.graph, t)
  {
    hide Walk, Rows, Span, Leaves, Expand, CutMeaning, WorkOf, Unfolds, AllValid, AllManifestsValid;
    assert LeafResolver.Justified(task.graph, task.keepEmpty, task.limits, t, result);
    ValidHasManifests(task.graph, t);
    CutPlanKeepsMeaning(task.graph, task.keepEmpty, t);
  }

  lemma {:induction false} ValidHasManifests(g: Graph, t: Tree)
    requires AllValid(g, t)
    ensures AllManifestsValid(g, t)
  {
  }

  // ----- when the resolver plans, on any graph

  /** The view whose table a path ends at. */
  function EndOf(g: Graph, v: ViewId, path: seq<nat>): ViewId
    decreases |path|
  {
    if |path| <= 1 || path[0] >= |Refs(g, v)| then v else EndOf(g, Refs(g, v)[path[0]].source, path[1..])
  }

  /** How many references of a path place a selector on the target's table. */
  function Selectors(g: Graph, v: ViewId, path: seq<nat>, target: ViewId): nat
    decreases |path|
  {
    if |path| <= 1 || path[0] >= |Refs(g, v)| then 0 else
      var r := Refs(g, v)[path[0]];
      (if Selects(r, target) then 1 else 0) + Selectors(g, r.source, path[1..], target)
  }

  /** No leaf is met by two selectors on its path. */
  ghost predicate OneSelectorEach(g: Graph, keepEmpty: bool, t: Tree) {
    forall path | path in PathSet(Paths(g, keepEmpty, t)) ::
      Selectors(g, t.view, path, EndOf(g, t.view, path)) <= 1
  }

  lemma {:induction false} RowEndsAtTarget(g: Graph, v: ViewId, path: seq<nat>, target: ViewId)
    requires PlanChecker.RowAt(g, v, path, target, false).Some?
    ensures target == EndOf(g, v, path)
    decreases |path|
  {
    if |path| > 1 {
      RowEndsAtTarget(g, Refs(g, v)[path[0]].source, path[1..], target);
    }
  }

  /** A leaf path admits a row exactly when at most one selector meets its leaf. */
  lemma {:induction false} SelectorsDecide(g: Graph, keepEmpty: bool, t: Tree, path: seq<nat>)
    requires Unfolds(g, t) && PlanChecker.AllReadable(g, t) && path in PathSet(Paths(g, keepEmpty, t))
    ensures var target := EndOf(g, t.view, path);
      var row := PlanChecker.RowAt(g, t.view, path, target, false);
      && (t.local ==> |path| == 1)
      && (row.Some? <==> Selectors(g, t.view, path, target) <= 1)
      && (row.Some? ==> (Bare(row.value) <==> Selectors(g, t.view, path, target) == 0))
    decreases t
  {
    hide ExtendChain;
    PathSetConcat(OwnPaths(g, keepEmpty, t.view), KidsPaths(g, keepEmpty, t.children));
    if path in PathSet(KidsPaths(g, keepEmpty, t.children)) {
      var i, below := LeafOfChild(g, keepEmpty, t.view, t.children, path);
      ChildUnfolds(g, t, i);
      assert path[1..] == below;
      SelectorsDecide(g, keepEmpty, t.children[i], below);
    }
  }

  /** A plan exists exactly when no leaf is met by two selectors. */
  lemma {:induction false} PlanIffOneSelectorEach(g: Graph, keepEmpty: bool, t: Tree)
    requires Unfolds(g, t) && PlanChecker.AllReadable(g, t)
    ensures Rows(g, keepEmpty, t).Some? <==> OneSelectorEach(g, keepEmpty, t)
  {
    hide Rows, PlanChecker.RowAt, Paths, PathSet, Selectors, EndOf, Unfolds;
    if Rows(g, keepEmpty, t).None? {
      var path := PlanChecker.NoPlanNoClaim(g, keepEmpty, t);
      SelectorsDecide(g, keepEmpty, t, path);
    } else {
      var rows := Rows(g, keepEmpty, t).value;
      PlanChecker.PlanIsDemanded(g, keepEmpty, t);
      PlanHasPaths(g, keepEmpty, t);
      forall path | path in PathSet(Paths(g, keepEmpty, t))
        ensures Selectors(g, t.view, path, EndOf(g, t.view, path)) <= 1
      {
        var i := PlanChecker.IndexOfPath(rows, path);
        RowEndsAtTarget(g, t.view, path, rows[i].view);
        SelectorsDecide(g, keepEmpty, t, path);
      }
    }
  }

  /** Everything the resolver demands of a view, without walking, memo table or rows. */
  ghost predicate Plannable(task: LeafResolver.Task, t: Tree) {
    && NoBackReference(t, false)
    && AllValid(task.graph, t)
    && WithinLimits(task.limits, WorkOf(task.graph, Views(t)), Span(task.graph, t),
         Leaves(task.graph, task.keepEmpty, t))
    && OneSelectorEach(task.graph, task.keepEmpty, t)
    && Leaves(task.graph, task.keepEmpty, t) >= 2
  }

  /**
   On any graph the resolver plans exactly the views that have an unfolding which meets its
   demands, and a cycle that it reports is one.
   */
  lemma {:induction false} PlannedIffPlannable(task: LeafResolver.Task, result: LeafResolver.PlanResult)
    requires LeafResolver.AllJustified(task, result)
    ensures result.Planned? <==> exists t :: UnfoldingOf(task.graph, Key(task.root, false), t) && Plannable(task, t)
    ensures result == LeafResolver.Rejected(LeafResolver.CyclicGraph) ==>
      && !NoReferenceCycle(task.graph, task.root)
      && forall t | UnfoldingOf(task.graph, Key(task.root, false), t) :: !NoBackReference(t, false)
  {
    hide NoReferenceCycle, NoBackReference, Plannable, Unfolds, PartOf, AllValid;
    forall t | UnfoldingOf(task.graph, Key(task.root, false), t)
      ensures result.Planned? <==> Plannable(task, t)
      ensures result == LeafResolver.Rejected(LeafResolver.CyclicGraph) ==> !NoBackReference(t, false)
    {
      UnfoldingDecides(task, result, t);
    }
  }

  lemma {:induction false} UnfoldingDecides(task: LeafResolver.Task, result: LeafResolver.PlanResult, t: Tree)
    requires LeafResolver.AllJustified(task, result)
    requires UnfoldingOf(task.graph, Key(task.root, false), t)
    ensures result.Planned? <==> Plannable(task, t)
    ensures result == LeafResolver.Rejected(LeafResolver.CyclicGraph) ==> !NoBackReference(t, false)
  {
    hide Walk, Rows, Span, Leaves, WorkOf, Unfolds, AllValid, AllManifestsValid, NoBackReference, OneSelectorEach;
    assert LeafResolver.Justified(task.graph, task.keepEmpty, task.limits, t, result);
    WalkIffNoBackReference(task.graph, t, false);
    RowsPerLeaf(task.graph, task.keepEmpty, t);
    if AllValid(task.graph, t) {
      ValidHasManifests(task.graph, t);
      PlanChecker.ValidIsReadable(task.graph, t);
      PlanIffOneSelectorEach(task.graph, task.keepEmpty, t);
    }
  }

  // ----- the scope-map chain of a row

  /** The scope maps met on the way down a path, outermost first; empty ones are not collected. */
  function MetMaps(g: Graph, v: ViewId, path: seq<nat>): seq<ScopeMap>
    decreases |path|
  {
    if |path| <= 1 || path[0] >= |Refs(g, v)| then [] else
      var r := Refs(g, v)[path[0]];
      (if r.scopeMap == [] then [] else [r.scopeMap]) + MetMaps(g, r.source, path[1..])
  }

  lemma {:induction false} WrapOutermost(table: Table, m: ScopeMap, met: seq<ScopeMap>, chain: seq<ScopeMap>)
    ensures PlanChecker.Wrap(table, [m] + met, chain) == ExtendChain(table, PlanChecker.Wrap(table, met, chain), m)
    decreases |met|
  {
    hide ExtendChain;
    var all := [m] + met;
    if met == [] {
      assert all == [m] && [m][..0] == [];
      assert PlanChecker.Wrap(table, [], ExtendChain(table, chain, m)) == ExtendChain(table, chain, m);
    } else {
      var last := met[|met| - 1];
      assert all[..|all| - 1] == [m] + met[..|met| - 1] && all[|all| - 1] == last;
      WrapOutermost(table, m, met[..|met| - 1], ExtendChain(table, chain, last));
    }
  }

  lemma {:induction false} DemandedChain(g: Graph, v: ViewId, path: seq<nat>, target: ViewId, allowMissing: bool)
    requires PlanChecker.RowAt(g, v, path, target, allowMissing).Some?
    ensures PlanChecker.RowAt(g, v, path, target, allowMissing).value.chain
      == PlanChecker.Wrap(TableOf(g, target), MetMaps(g, v, path), [])
    decreases |path|
  {
    if |path| > 1 {
      var r := Refs(g, v)[path[0]];
      DemandedChain(g, r.source, path[1..], target, allowMissing);
      if r.scopeMap == [] {
        assert [] + MetMaps(g, r.source, path[1..]) == MetMaps(g, r.source, path[1..]);
      } else {
        WrapOutermost(TableOf(g, target), r.scopeMap, MetMaps(g, r.source, path[1..]), []);
      }
    }
  }

  /**
   The two constructions keep the same chain: what the resolver builds bottom-up for a row
   is what the checker rebuilds from the maps it met on the way down the row's path.
   */
  lemma {:induction false} ChainsAgree(g: Graph, keepEmpty: bool, t: Tree, i: nat)
    requires Unfolds(g, t) && PlanChecker.AllReadable(g, t) && Rows(g, keepEmpty, t).Some?
    requires i < |Rows(g, keepEmpty, t).value|
    ensures var row := Rows(g, keepEmpty, t).value[i];
      row.chain == PlanChecker.Wrap(TableOf(g, row.view), MetMaps(g, t.view, row.path), [])
  {
    hide Rows, PlanChecker.Wrap, MetMaps;
    PlanChecker.PlanIsDemanded(g, keepEmpty, t);
    var row := Rows(g, keepEmpty, t).value[i];
    DemandedChain(g, t.view, row.path, row.view, false);
  }

  /** All maps in the order in which they apply: the innermost one first. */
  function InnermostFirst(met: seq<ScopeMap>): seq<ScopeMap> {
    if met == [] then [] else [met[|met| - 1]] + InnermostFirst(met[..|met| - 1])
  }

  lemma {:induction false} EffectiveAfter(m: ScopeMap, chain: seq<ScopeMap>, s: Scope)
    ensures Effective([m] + chain, s) == Effective(chain, MapScope(m, s))
    decreases |chain|
  {
    var all := [m] + chain;
    if chain == [] {
      assert all[..0] == [] && all[0] == m;
    } else {
      assert all[..|all| - 1] == [m] + chain[..|chain| - 1];
      EffectiveAfter(m, chain[..|chain| - 1], s);
    }
  }

  /**
   The chain kept for a table gives every anonymous scope of the table the name that
   applying every map met on the way would give it.
   */
  lemma {:induction false} KeptChainIsExact(table: Table, met: seq<ScopeMap>, chain: seq<ScopeMap>, node: nat)
    requires node < |table.nodes| && table.nodes[node].Some?
    ensures var s := table.nodes[node].value;
      Effective(PlanChecker.Wrap(table, met, chain), s) == Effective(InnermostFirst(met), Effective(chain, s))
    decreases |met|
  {
    hide ExtendChain, MapScope;
    var s := table.nodes[node].value;
    if met != [] {
      var init, last := met[..|met| - 1], met[|met| - 1];
      KeptChainIsExact(table, init, ExtendChain(table, chain, last), node);
      PrunedChainIsExact(table, chain, last, node);
      EffectiveAfter(last, InnermostFirst(init), Effective(chain, s));
    }
  }

  // ----- the checker on the resolver's plans

  /** What the checker demands beyond what the resolver does. */
  ghost predicate CheckerConditions(g: Graph, t: Tree) {
    && NoBackReference(t, true)
    && forall v | v in Views(t) :: EmptyWithoutLocal(g, v)
  }

  /**
   Under equal limits the checker accepts exactly the resolver's plan, in any row
   order, provided there is no back reference and containers without a local segment have
   empty tables; otherwise it accepts nothing.
   */
  lemma {:induction false} CheckerAcceptsExactlyThePlan(
    task: LeafResolver.Task, t: Tree, plan: seq<Row>, containers: set<ViewId>, rows: seq<Row>)
    requires task.limits.work.Some? && task.limits.depth.Some?
    requires UnfoldingOf(task.graph, Key(task.root, false), t)
    requires LeafResolver.Justified(
      task.graph, task.keepEmpty, task.limits, t, LeafResolver.Planned(plan, containers))
    ensures var bounds := PathEnumerator.Bounds(task.limits.work.value, task.limits.depth.value, |rows|);
      PlanChecker.Certified(
        PathEnumerator.Task(task.graph, task.root, task.keepEmpty, bounds), t, rows)
      <==> CheckerConditions(task.graph, t) && multiset(rows) == multiset(plan)
  {
    hide Walk, Rows, Span, Leaves, WorkOf, Unfolds, NoBackReference;
    WalkIffNoBackReference(task.graph, t, true);
    RowsPerLeaf(task.graph, task.keepEmpty, t);
    assert |multiset(rows)| == |rows| && |multiset(plan)| == |plan|;
    assert forall v | v in Views(t) :: ValidView(task.graph, v);
    assert (forall v | v in Views(t) :: EmptyWithoutLocal(task.graph, v)) <==>
      PathEnumerator.AllValidNodes(task.graph, t);
  }

  /** Where no view repeats on a path, the first of the two conditions always holds. */
  lemma {:induction false} AcyclicMeetsChecker(g: Graph, t: Tree)
    requires NoRepeat(t, {})
    ensures CheckerConditions(g, t) <==> forall v | v in Views(t) :: EmptyWithoutLocal(g, v)
  {
    NoRepeatNoBackReference(t, true);
  }

  // ----- the two sides differ on INCLUDE back references

  function Ref(source: ViewId, posting: Posting, token: nat): Reference {
    Reference(source, 0, posting, [], token)
  }

  /** View 2 includes roots of view 1, which stands on view 2; view 0 includes view 1 first. */
  const BACK_REFERENCE: Graph := map[
    0 := View(0, Composite, [Ref(1, Include([1]), 1), Ref(1, All, 2)], false, Table([], []), 0),
    1 := View(0, Overlay, [Ref(2, All, 0)], true, Table([None], [[0]]), 0),
    2 := View(0, Composite, [Ref(1, Include([1]), 1), Ref(3, All, 2)], false, Table([], []), 0),
    3 := View(0, Direct, [], true, Table([None], [[0]]), 0)]

  const LEAF_1: Tree := Tree(1, true, [])
  const LEAF_3: Tree := Tree(3, false, [])
  const TREE_2: Tree := Tree(2, false, [LEAF_1, LEAF_3])
  const TREE_1: Tree := Tree(1, false, [TREE_2])
  const TREE_0: Tree := Tree(0, false, [LEAF_1, TREE_1])

  lemma {:induction false} BackReferenceUnfolds()
    ensures UnfoldingOf(BACK_REFERENCE, Key(0, false), TREE_0) && AllValid(BACK_REFERENCE, TREE_0)
  {
    hide ValidView, ValidManifest;
    var g := BACK_REFERENCE;
    assert Unfolds(g, LEAF_1) && Unfolds(g, LEAF_3);
    assert KidsUnfold(g, 2, TREE_2.children);
    assert KidsUnfold(g, 1, TREE_1.children);
    assert KidsUnfold(g, 0, TREE_0.children);
    forall v | v in Views(TREE_0) ensures ValidView(g, v) {
      KeysExist(g, TREE_0, v);
      BackReferenceIsValid(v);
    }
  }

  lemma {:induction false} BackReferenceIsValid(v: ViewId)
    requires v in BACK_REFERENCE
    ensures ValidView(BACK_REFERENCE, v)
  {
    assert v == 0 || v == 1 || v == 2 || v == 3;
  }

  lemma {:induction false} KeysExist(g: Graph, t: Tree, v: ViewId)
    requires Unfolds(g, t) && v in Views(t)
    ensures v in g
  {
    var k :| k in Keys(t) && k.view == v;
    var s := KeyHasUnfolding(g, t, k);
  }

  /** One walk takes the memo table's answer for view 1, the other meets view 1 while it is active. */
  lemma {:induction false} BackReferenceWalks()
    ensures Walk(TREE_0, {}, {}, false).Some? && Walk(TREE_0, {}, {}, true).None?
  {
    var one := {Key(1, true)};
    assert forall above, early :: Walk(LEAF_1, above, {}, early) == Some(one) by {
      forall above, early ensures Walk(LEAF_1, above, {}, early) == Some(one) {
        assert {} + {KeyOf(LEAF_1)} == one;
      }
    }
    var top := {} + {0};
    var mid := top + {1};
    var low := mid + {2};
    assert [LEAF_1, LEAF_3][..1] == [LEAF_1] && [LEAF_1][..0] == [] && [TREE_2][..0] == [];
    assert [LEAF_1, TREE_1][..1] == [LEAF_1];
    assert WalkKids([LEAF_1], low, one, false) == Some(one);
    assert WalkKids([LEAF_1], low, one, true) == None;
    assert WalkKids(TREE_2.children, low, one, true) == None;
    assert WalkKids(TREE_2.children, low, one, false).Some?;
    assert Walk(TREE_2, mid, one, true) == None && Walk(TREE_2, mid, one, false).Some?;
    assert WalkKids(TREE_1.children, mid, one, true) == None;
    assert WalkKids(TREE_1.children, mid, one, false).Some?;
    assert Walk(TREE_1, top, one, true) == None && Walk(TREE_1, top, one, false).Some?;
    assert 1 !in top && WalkKids([], top, {}, true) == Some({}) && WalkKids([], top, {}, false) == Some({});
    assert Walk(LEAF_1, top, {}, true) == Some(one) && Walk(LEAF_1, top, {}, false) == Some(one);
    assert WalkKids([LEAF_1], top, {}, false) == Some(one);
    assert WalkKids([LEAF_1], top, {}, true) == Some(one);
    assert WalkKids(TREE_0.children, top, {}, true) == None;
    assert WalkKids(TREE_0.children, top, {}, false).Some?;
  }

  /** Only EXCLUDE can meet a selector that is already there. */
  lemma {:induction false} NoExcludeNoConflict(g: Graph, keepEmpty: bool, t: Tree)
    requires Unfolds(g, t)
    requires forall v, i | v in g && 0 <= i < |g[v].refs| :: !g[v].refs[i].posting.Exclude?
    ensures Rows(g, keepEmpty, t).Some?
    decreases t
  {
    NoExcludeNoConflictKids(g, keepEmpty, t.view, t.children);
  }

  lemma {:induction false} NoExcludeNoConflictKids(g: Graph, keepEmpty: bool, v: ViewId, kids: seq<Tree>)
    requires KidsUnfold(g, v, kids)
    requires forall v, i | v in g && 0 <= i < |g[v].refs| :: !g[v].refs[i].posting.Exclude?
    ensures KidsRows(g, keepEmpty, v, kids).Some?
    decreases kids
  {
    if kids != [] {
      var last := |kids| - 1;
      var c, r := kids[last], Refs(g, v)[last];
      NoExcludeNoConflictKids(g, keepEmpty, v, kids[..last]);
      NoExcludeNoConflict(g, keepEmpty, c);
      var mapped := ApplyScopeMap(g, Rows(g, keepEmpty, c).value, r.scopeMap);
      if r.posting.Include? {
        LocalRows(g, keepEmpty, c);
        assert mapped == [] || mapped[..|mapped| - 1] == [];
      }
      assert ApplyPostings(mapped, r.source, r.posting).Some?;
    }
  }

  lemma {:induction false} BackReferenceLeaves()
    ensures Leaves(BACK_REFERENCE, false, TREE_0) >= 2
  {
    var g := BACK_REFERENCE;
    assert Leaves(g, false, LEAF_1) == 1;
    assert [LEAF_1, TREE_1][..1] == [LEAF_1];
    assert KidsLeaves(g, false, [LEAF_1]) == 1;
    assert Leaves(g, false, TREE_1) >= 1;
  }

  /**
   A manifest that the resolver flattens although no plan for it can pass the checker:
   the agreement above cannot drop its conditions.
   */
  lemma {:induction false} BackReferenceDisagrees()
    ensures UnfoldingOf(BACK_REFERENCE, Key(0, false), TREE_0)
    ensures LeafResolver.Admitted(BACK_REFERENCE, false, Limits(None, None, None), TREE_0)
    ensures forall task: PathEnumerator.Task, rows |
      task.graph == BACK_REFERENCE && task.root == 0 :: !PlanChecker.Certified(task, TREE_0, rows)
  {
    hide Walk, Rows, Span, Leaves, WorkOf, Unfolds;
    BackReferenceUnfolds();
    BackReferenceWalks();
    BackReferenceLeaves();
    NoExcludeNoConflict(BACK_REFERENCE, false, TREE_0);
    RowsPerLeaf(BACK_REFERENCE, false, TREE_0);
  }

  // ----- the resolver's answer depends on the order of references

  /** The same views, but view 0 refers to view 1 in full before it includes it. */
  const SWAPPED: Graph :=
    BACK_REFERENCE[0 := View(0, Composite, [Ref(1, All, 1), Ref(1, Include([1]), 2)], false, Table([], []), 0)]

  const SWAPPED_TREE: Tree := Tree(0, false, [TREE_1, LEAF_1])

  lemma {:induction false} SwappedUnfolds()
    ensures UnfoldingOf(SWAPPED, Key(0, false), SWAPPED_TREE) && AllValid(SWAPPED, SWAPPED_TREE)
  {
    hide ValidView, ValidManifest;
    var g := SWAPPED;
    assert Unfolds(g, LEAF_1) && Unfolds(g, LEAF_3);
    assert KidsUnfold(g, 2, TREE_2.children);
    assert KidsUnfold(g, 1, TREE_1.children);
    assert KidsUnfold(g, 0, SWAPPED_TREE.children);
    forall v | v in Views(SWAPPED_TREE) ensures ValidView(g, v) {
      KeysExist(g, SWAPPED_TREE, v);
      SwappedIsValid(v);
    }
  }

  lemma {:induction false} SwappedIsValid(v: ViewId)
    requires v in SWAPPED
    ensures ValidView(SWAPPED, v)
  {
    assert v == 0 || v == 1 || v == 2 || v == 3;
  }

  /** View 1 is active and not yet in the memo table when view 2 includes it. */
  lemma {:induction false} SwappedWalk()
    ensures Walk(SWAPPED_TREE, {}, {}, false).None?
  {
    var top := {} + {0};
    var mid := top + {1};
    var low := mid + {2};
    assert [LEAF_1, LEAF_3][..1] == [LEAF_1] && [LEAF_1][..0] == [] && [TREE_2][..0] == [];
    assert [TREE_1, LEAF_1][..1] == [TREE_1] && [TREE_1][..0] == [];
    assert WalkKids([], low, {}, false) == Some({}) && 1 in low && KeyOf(LEAF_1) !in {};
    assert WalkKids([LEAF_1], low, {}, false) == None;
    assert WalkKids(TREE_2.children, low, {}, false) == None;
    assert Walk(TREE_2, mid, {}, false) == None;
    assert WalkKids(TREE_1.children, mid, {}, false) == None;
    assert Walk(TREE_1, top, {}, false) == None;
    assert WalkKids([TREE_1], top, {}, false) == None;
    assert WalkKids(SWAPPED_TREE.children, top, {}, false) == None;
  }

  /**
   Without any limits the resolver flattens one manifest and reports a cycle in the other,
   which differs from it in nothing but the order of two references.
   */
  lemma {:induction false} OrderOfReferencesDecides(
    task: LeafResolver.Task, result: LeafResolver.PlanResult, swapped: LeafResolver.Task,
    swappedResult: LeafResolver.PlanResult)
    requires LeafResolver.AllJustified(task, result) && LeafResolver.AllJustified(swapped, swappedResult)
    requires task == LeafResolver.Task(BACK_REFERENCE, 0, false, Limits(None, None, None))
    requires swapped == task.(graph := SWAPPED)
    ensures result.Planned?
    ensures swappedResult == LeafResolver.Rejected(LeafResolver.CyclicGraph)
  {
    hide Walk, Rows, Span, Leaves, WorkOf, Unfolds, AllValid;
    BackReferenceDisagrees();
    assert LeafResolver.Justified(BACK_REFERENCE, false, task.limits, TREE_0, result);
    SwappedUnfolds();
    SwappedWalk();
    SwappedLeaves();
    NoExcludeNoConflict(SWAPPED, false, SWAPPED_TREE);
    RowsPerLeaf(SWAPPED, false, SWAPPED_TREE);
    assert LeafResolver.Justified(SWAPPED, false, swapped.limits, SWAPPED_TREE, swappedResult);
  }

  lemma {:induction false} SwappedLeaves()
    ensures Leaves(SWAPPED, false, SWAPPED_TREE) >= 2
  {
    var g := SWAPPED;
    assert Leaves(g, false, LEAF_1) == 1;
    assert [TREE_1, LEAF_1][..1] == [TREE_1] && [TREE_1][..0] == [];
    assert Leaves(g, false, TREE_1) >= 1;
    assert KidsLeaves(g, false, [TREE_1]) >= 1;
  }

  /**
   View 1 of the same manifest meets itself again below itself: resolving it fully and
   filtering afterwards, as for INCLUDE, is refused where resolving it locally yields its row.
   */
  lemma {:induction false} LocalResolutionDiffers()
    ensures Unfolds(BACK_REFERENCE, TREE_1) && Unfolds(BACK_REFERENCE, LEAF_1)
    ensures Rows(BACK_REFERENCE, false, TREE_1).Some? && Rows(BACK_REFERENCE, false, LEAF_1).Some?
    ensures ApplyPostings(Rows(BACK_REFERENCE, false, TREE_1).value, 1, Include([1]))
      != ApplyPostings(Rows(BACK_REFERENCE, false, LEAF_1).value, 1, Include([1]))
  {
    hide Rows, ApplyPostings, Paths, PathSet, PlanChecker.RowAt, Unfolds, ValidManifest, PlanChecker.AllReadable;
    var g, deep := BACK_REFERENCE, [0, 0, 1];
    PartsUnfold();
    NoExcludeNoConflict(g, false, TREE_1);
    DeepLeaf();
    PlanChecker.ValidIsReadable(g, TREE_1);
    PlanChecker.PlanIsDemanded(g, false, TREE_1);
    PlanHasPaths(g, false, TREE_1);
    var rows := Rows(g, false, TREE_1).value;
    var i := PlanChecker.IndexOfPath(rows, deep);
    RowEndsAtTarget(g, 1, deep, rows[i].view);
    assert deep[1..] == [0, 1] && [0, 1][1..] == [1];
    assert EndOf(g, 1, deep) == 1;
    IncludeNeedsOnlyOwnRows(g, false, TREE_1, LEAF_1, [1]);
  }

  lemma {:induction false} PartsUnfold()
    ensures Unfolds(BACK_REFERENCE, TREE_1) && Unfolds(BACK_REFERENCE, LEAF_1)
    ensures AllManifestsValid(BACK_REFERENCE, TREE_1)
  {
    hide ValidView, ValidManifest, Keys;
    BackReferenceUnfolds();
    assert KidsUnfold(BACK_REFERENCE, 0, TREE_0.children);
    assert TREE_0.children[0] == LEAF_1 && TREE_0.children[1] == TREE_1;
    KeysOfChild(TREE_0, 1);
    ValidHasManifests(BACK_REFERENCE, TREE_0);
  }

  /** The path of the leaf that view 2 includes from view 1. */
  lemma {:induction false} DeepLeaf()
    ensures [0, 0, 1] in PathSet(Paths(BACK_REFERENCE, false, TREE_1))
  {
    var g := BACK_REFERENCE;
    assert Paths(g, false, LEAF_1) == [[1]] && [[1]][0] == [1];
    BelowChild(g, TREE_2, 0, [1]);
    BelowChild(g, TREE_1, 0, [0] + [1]);
    assert [0] + ([0] + [1]) == [0, 0, 1];
  }

  lemma {:induction false} BelowChild(g: Graph, t: Tree, i: nat, path: seq<nat>)
    requires i < |t.children| && path in PathSet(Paths(g, false, t.children[i]))
    ensures [i] + path in PathSet(Paths(g, false, t))
  {
    hide PathSet;
    RootPlan.ChildPathIsPath(g, false, t.children, i, path);
    PathSetConcat(OwnPaths(g, false, t.view), KidsPaths(g, false, t.children));
  }

  // ----- and on containers that have nodes but no roots of their own

  /** A composite of two direct views, whose own table has a node and no root. */
  const NODES_WITHOUT_ROOTS: Graph := map[
    0 := View(0, Composite, [Ref(1, All, 1), Ref(2, All, 2)], false, Table([None], []), 0),
    1 := View(0, Direct, [], true, Table([None], [[0]]), 0),
    2 := View(0, Direct, [], true, Table([None], [[0]]), 0)]

  const LEAF_2: Tree := Tree(2, false, [])
  const OPEN_LEAF_1: Tree := Tree(1, false, [])
  const TWO_LEAVES: Tree := Tree(0, false, [OPEN_LEAF_1, LEAF_2])

  lemma {:induction false} TwoLeavesUnfold()
    ensures UnfoldingOf(NODES_WITHOUT_ROOTS, Key(0, false), TWO_LEAVES)
    ensures AllValid(NODES_WITHOUT_ROOTS, TWO_LEAVES) && NoRepeat(TWO_LEAVES, {})
  {
    hide ValidView, ValidManifest;
    var g := NODES_WITHOUT_ROOTS;
    assert Unfolds(g, OPEN_LEAF_1) && Unfolds(g, LEAF_2);
    assert KidsUnfold(g, 0, TWO_LEAVES.children);
    forall v | v in Views(TWO_LEAVES) ensures ValidView(g, v) {
      KeysExist(g, TWO_LEAVES, v);
      TwoLeavesAreValid(v);
    }
  }

  lemma {:induction false} TwoLeavesAreValid(v: ViewId)
    requires v in NODES_WITHOUT_ROOTS
    ensures ValidView(NODES_WITHOUT_ROOTS, v)
  {
    assert v == 0 || v == 1 || v == 2;
  }

  lemma {:induction false} TwoLeavesCount()
    ensures Leaves(NODES_WITHOUT_ROOTS, false, TWO_LEAVES) == 2
  {
    var g := NODES_WITHOUT_ROOTS;
    assert Leaves(g, false, OPEN_LEAF_1) == 1 && Leaves(g, false, LEAF_2) == 1;
    assert [OPEN_LEAF_1, LEAF_2][..1] == [OPEN_LEAF_1] && [OPEN_LEAF_1][..0] == [];
    assert KidsLeaves(g, false, [OPEN_LEAF_1]) == 1;
  }

  /** The resolver flattens this acyclic manifest, and no plan for it can pass the checker. */
  lemma {:induction false} EmptyContainerDisagrees()
    ensures UnfoldingOf(NODES_WITHOUT_ROOTS, Key(0, false), TWO_LEAVES) && NoRepeat(TWO_LEAVES, {})
    ensures LeafResolver.Admitted(NODES_WITHOUT_ROOTS, false, Limits(None, None, None), TWO_LEAVES)
    ensures forall task: PathEnumerator.Task, rows |
      task.graph == NODES_WITHOUT_ROOTS && task.root == 0 :: !PlanChecker.Certified(task, TWO_LEAVES, rows)
  {
    hide Walk, Rows, Span, Leaves, WorkOf, Unfolds, NoRepeat;
    TwoLeavesUnfold();
    WalkWithoutRepeats(TWO_LEAVES, {}, {}, false);
    TwoLeavesCount();
    NoExcludeNoConflict(NODES_WITHOUT_ROOTS, false, TWO_LEAVES);
    RowsPerLeaf(NODES_WITHOUT_ROOTS, false, TWO_LEAVES);
    RootIsKey(TWO_LEAVES);
    assert !PathEnumerator.ValidNode(NODES_WITHOUT_ROOTS, 0);
  }
}
