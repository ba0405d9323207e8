/**
 The shortcut for composites all of whose members are plain views: one row per member, with
 the member's own selector and scope map and without a path.  It selects what the plan of
 the recursive resolver selects.
 */
module DirectMembers {
  import opened Wrappers
  import opened Manifests
  import opened Unfoldings
  import opened LeafPlans
  import opened Parts
  import opened PlanMeaning
  import LeafResolver

  datatype MemberRow = MemberRow(
    view: ViewId, included: Option<seq<nat>>, excluded: Option<seq<nat>>, scopeMap: Option<ScopeMap>)

  datatype Answer = Members(rows: seq<MemberRow>) | NotApplicable | Refused(reason: LeafResolver.Failure)

  datatype Resolution = Flat(rows: seq<MemberRow>) | Recursive(result: LeafResolver.PlanResult)

  // ----- when the shortcut is tried, and when it applies

  /** The only segment of the view is its direct one. */
  predicate IsPlain(g: Graph, v: ViewId) {
    v in g && g[v].kind.Direct? && g[v].refs == [] && g[v].local
  }

  predicate Candidate(g: Graph, root: ViewId) {
    && |Refs(g, root)| >= 2 && g[root].kind.Composite? && !g[root].local
    && forall i | 0 <= i < |g[root].refs| :: IsPlain(g, g[root].refs[i].source)
  }

  /** No two members share a view or an owner. */
  predicate Apart(g: Graph, refs: seq<Reference>) {
    forall i, j | 0 <= i < j < |refs| :: refs[i].source != refs[j].source && refs[i].owner != refs[j].owner
  }

  function Sources(refs: seq<Reference>): set<ViewId> {
    set i | 0 <= i < |refs| :: refs[i].source
  }

  predicate Applicable(g: Graph, root: ViewId) {
    TableOf(g, root) == Table([], []) && Apart(g, Refs(g, root))
  }

  predicate SourcesValid(g: Graph, refs: seq<Reference>) {
    forall i | 0 <= i < |refs| :: ValidView(g, refs[i].source)
  }

  function MemberOf(r: Reference): MemberRow {
    MemberRow(
      r.source,
      if r.posting.Include? then Some(r.posting.ids) else None,
      if r.posting.Exclude? then Some(r.posting.ids) else None,
      if r.scopeMap == [] then None else Some(r.scopeMap))
  }

  ghost predicate MembersOf(refs: seq<Reference>, rows: seq<MemberRow>) {
    |rows| == |refs| && forall i | 0 <= i < |rows| :: rows[i] == MemberOf(refs[i])
  }

  /** Everything the shortcut demands. */
  ghost predicate Resolvable(g: Graph, root: ViewId, limits: Limits) {
    && Applicable(g, root) && SourcesValid(g, Refs(g, root))
    && !Exceeds(limits.work, WorkOf(g, {root} + Sources(Refs(g, root))))
  }

  /** Where all members are valid, the shortcut is tried exactly on composites of direct views without bridge. */
  lemma {:induction false} TriedOnDirectMembers(g: Graph, root: ViewId)
    requires ValidView(g, root) && forall i | 0 <= i < |g[root].refs| :: ValidView(g, g[root].refs[i].source)
    ensures Candidate(g, root) <==>
      && g[root].kind == Composite && !g[root].local
      && forall i | 0 <= i < |g[root].refs| :: g[g[root].refs[i].source].kind == Direct
  {
  }

  // ----- the code

  /** Is the view or its owner among the members so far? */
  method Repeated(g: Graph, r: Reference, prior: seq<Reference>) returns (found: bool)
    ensures found <==> exists i :: 0 <= i < |prior| && (prior[i].source == r.source || prior[i].owner == r.owner)
  {
    var i := 0;
    while i < |prior|
      invariant 0 <= i <= |prior|
      invariant forall k | 0 <= k < i :: prior[k].source != r.source && prior[k].owner != r.owner
    {
      if prior[i].source == r.source || prior[i].owner == r.owner {
        return true;
      }
      i := i + 1;
    }
    found := false;
  }

  lemma {:induction false} OneMoreApart(g: Graph, refs: seq<Reference>, i: nat)
    requires i < |refs| && Apart(g, refs[..i])
    requires forall k | 0 <= k < i :: refs[k].source != refs[i].source && refs[k].owner != refs[i].owner
    ensures Apart(g, refs[..i + 1])
  {
  }

  method ResolveDirectMembers(g: Graph, root: ViewId, limits: Limits) returns (answer: Answer)
    requires ValidView(g, root) && Candidate(g, root)
    ensures answer.Members? <==> Resolvable(g, root, limits)
    ensures match answer
      case Members(rows) => MembersOf(Refs(g, root), rows)
      case NotApplicable => !Applicable(g, root)
      case Refused(InvalidView) => !SourcesValid(g, Refs(g, root))
      case Refused(WorkLimit) => Exceeds(limits.work, WorkOf(g, {root} + Sources(Refs(g, root))))
      case Refused(_) => false
  {
    hide ValidView, WorkOf;
    var refs := Refs(g, root);
    if TableOf(g, root) != Table([], []) {
      return NotApplicable;
    }
    var rows: seq<MemberRow>, i := [], 0;
    while i < |refs|
      invariant 0 <= i <= |refs|
      invariant MembersOf(refs[..i], rows) && Apart(g, refs[..i]) && SourcesValid(g, refs[..i])
    {
      if !ValidView(g, refs[i].source) {
        return Refused(LeafResolver.InvalidView);
      }
      var repeated := Repeated(g, refs[i], refs[..i]);
      if repeated {
        return NotApplicable;
      }
      OneMoreApart(g, refs, i);
      rows, i := rows + [MemberOf(refs[i])], i + 1;
    }
    assert refs[..i] == refs;
    var work := ChargeMembers(g, root);
    answer := if Exceeds(limits.work, work) then Refused(LeafResolver.WorkLimit) else Members(rows);
  }

  /** The members are apart and none of them is the composite, so each view is charged once. */
  method ChargeMembers(g: Graph, root: ViewId) returns (work: nat)
    requires ValidView(g, root) && Candidate(g, root) && Apart(g, Refs(g, root))
    ensures work == WorkOf(g, {root} + Sources(Refs(g, root)))
  {
    var refs := Refs(g, root);
    work := g[root].work;
    OnlyRoot(g, root);
    var i := 0;
    while i < |refs|
      invariant 0 <= i <= |refs|
      invariant work == WorkOf(g, {root} + Sources(refs[..i]))
    {
      OneMoreSource(g, root, refs, i);
      work := work + g[refs[i].source].work;
      i := i + 1;
    }
    assert refs[..i] == refs;
  }

  lemma {:induction false} OnlyRoot(g: Graph, root: ViewId)
    requires root in g
    ensures forall refs: seq<Reference> :: WorkOf(g, {root} + Sources(refs[..0])) == g[root].work
  {
    WorkOfAdd(g, {}, root);
    assert {} + {root} == {root};
    forall refs: seq<Reference> ensures {root} + Sources(refs[..0]) == {root} {
    }
  }

  lemma {:induction false} OneMoreSource(g: Graph, root: ViewId, refs: seq<Reference>, i: nat)
    requires i < |refs| && Apart(g, refs) && refs[i].source in g && refs[i].source != root
    ensures WorkOf(g, {root} + Sources(refs[..i + 1])) == WorkOf(g, {root} + Sources(refs[..i])) + g[refs[i].source].work
  {
    var before := {root} + Sources(refs[..i]);
    assert refs[..i + 1] == refs[..i] + [refs[i]];
    assert Sources(refs[..i + 1]) == Sources(refs[..i]) + {refs[i].source} by {
      assert refs[..i + 1][i] == refs[i];
      assert forall k | 0 <= k < i :: refs[..i + 1][k] == refs[..i][k];
    }
    assert {root} + Sources(refs[..i + 1]) == before + {refs[i].source};
    WorkOfAdd(g, before, refs[i].source);
  }

  // ----- the unfolding of a candidate

  function FlatTree(g: Graph, root: ViewId): Tree {
    Tree(root, false,
      seq(|Refs(g, root)|, i requires 0 <= i < |Refs(g, root)| =>
        Tree(Refs(g, root)[i].source, Refs(g, root)[i].posting.Include?, [])))
  }

  lemma {:induction false} FlatUnfolds(g: Graph, root: ViewId)
    requires root in g && Candidate(g, root)
    ensures UnfoldingOf(g, Key(root, false), FlatTree(g, root))
  {
    var t := FlatTree(g, root);
    forall i | 0 <= i < |t.children|
      ensures KeyOf(t.children[i]) == ChildKey(Refs(g, root)[i]) && Unfolds(g, t.children[i])
    {
      assert IsPlain(g, Refs(g, root)[i].source);
      assert KidsUnfold(g, t.children[i].view, t.children[i].children);
    }
    assert KidsUnfold(g, root, t.children);
  }

  lemma {:induction false} FlatViews(g: Graph, root: ViewId)
    requires root in g
    ensures Views(FlatTree(g, root)) == {root} + Sources(Refs(g, root))
  {
    var t, refs := FlatTree(g, root), Refs(g, root);
    forall i | 0 <= i < |t.children| ensures Keys(t.children[i]) == {KeyOf(t.children[i])} {
    }
    forall i | 0 <= i < |refs| ensures refs[i].source in Views(t) {
      assert KeyOf(t.children[i]) in Keys(t);
    }
    assert KeyOf(t) in Keys(t);
  }

  /** What refuses the shortcut would refuse the recursive plan as well. */
  lemma {:induction false} RefusalIsJustified(
    g: Graph, root: ViewId, keepEmpty: bool, limits: Limits, why: LeafResolver.Failure)
    requires root in g && Candidate(g, root)
    requires
      || (why.InvalidView? && !SourcesValid(g, Refs(g, root)))
      || (why.WorkLimit? && Exceeds(limits.work, WorkOf(g, {root} + Sources(Refs(g, root)))))
    ensures LeafResolver.AllJustified(LeafResolver.Task(g, root, keepEmpty, limits), LeafResolver.Rejected(why))
  {
    hide ValidView, WorkOf, Unfolds, Part, FlatTree, LeafResolver.AllJustified, Candidate;
    var t := FlatTree(g, root);
    FlatUnfolds(g, root);
    FlatViews(g, root);
    UnfoldingIsPart(g, t);
    LeafResolver.ShownRefuses(LeafResolver.Task(g, root, keepEmpty, limits), why, t);
  }

  /** The whole resolver: the shortcut where it is tried and applies, the recursive plan otherwise. */
  method ResolvePlan(g: Graph, root: ViewId, keepEmpty: bool, limits: Limits) returns (resolution: Resolution)
    requires ValidView(g, root)
    ensures resolution.Flat? <==> Candidate(g, root) && Resolvable(g, root, limits)
    ensures resolution.Flat? ==> MembersOf(Refs(g, root), resolution.rows)
    ensures resolution.Recursive? ==>
      LeafResolver.AllJustified(LeafResolver.Task(g, root, keepEmpty, limits), resolution.result)
  {
    hide ValidView, Applicable, SourcesValid, WorkOf, LeafResolver.AllJustified, MembersOf, Sources, Candidate;
    if Candidate(g, root) {
      var answer := ResolveDirectMembers(g, root, limits);
      match answer
      case Members(rows) => return Flat(rows);
      case Refused(reason) =>
        LeafResolver.ValidViewExists(g, root);
        RefusalIsJustified(g, root, keepEmpty, limits, reason);
        return Recursive(LeafResolver.Rejected(reason));
      case NotApplicable =>
    }
    var result := LeafResolver.ResolveLeafPlan(g, root, keepEmpty, limits);
    resolution := Recursive(result);
  }

  // ----- the meaning of the rows

  /** A member row as a plan row: its scope map is kept whether it applies or not. */
  function AsRow(row: MemberRow, segment: nat): Row {
    Row(row.view, row.included, row.excluded, if row.scopeMap.Some? then [row.scopeMap.value] else [], [segment, 0])
  }

  function AsRows(rows: seq<MemberRow>): seq<Row> {
    if rows == [] then [] else AsRows(rows[..|rows| - 1]) + [AsRow(rows[|rows| - 1], |rows| - 1)]
  }

  lemma {:induction false} RenderOneMap(table: Table, root: seq<nat>, m: ScopeMap)
    ensures Render(table, root, if m == [] then [] else [m]) == Render(table, root, ExtendChain(table, [], m))
  {
    RenderExtends(table, root, [], m);
    forall s ensures Effective([m], s) == MapScope(m, s) {
      assert [m][..0] == [] && Effective([], s) == s;
    }
    forall i | 0 <= i < |root|
      ensures EffectiveNode(if m == [] then [] else [m], NodeScope(table, root[i]))
        == MapNode(m, EffectiveNode([], NodeScope(table, root[i])))
    {
    }
  }

  lemma {:induction false} SameRoots(g: Graph, a: Row, b: Row, n: nat)
    requires a.view == b.view && a.included == b.included && a.excluded == b.excluded && a.path == b.path
    requires forall root: seq<nat> ::
      Render(TableOf(g, a.view), root, a.chain) == Render(TableOf(g, a.view), root, b.chain)
    requires n <= |TableOf(g, a.view).roots|
    ensures RowRoots(g, a, n) == RowRoots(g, b, n)
  {
    hide Render;
    if n > 0 {
      SameRoots(g, a, b, n - 1);
    }
  }

  /** One member: its row selects what the reference to it means. */
  lemma {:induction false} MemberMeaning(g: Graph, r: Reference, segment: nat)
    requires IsPlain(g, r.source)
    ensures var row := AsRow(MemberOf(r), segment);
      Expand(g, [row]) == Refer(r, segment, OwnRoots(g, r.source, |TableOf(g, r.source).roots|))
  {
    hide Render, ExtendChain, Refer, OwnRoots, RowRoots;
    var table, own := TableOf(g, r.source), LocalRow(g, r.source);
    var row, referred := AsRow(MemberOf(r), segment), ReferredRow(g, r, segment, own);
    LocalRowMeaning(g, r.source, |table.roots|);
    assert [own][0] == own;
    RowKeepsMeaning(g, r, segment, own, |table.roots|);
    forall root: seq<nat> ensures Render(table, root, row.chain) == Render(table, root, referred.chain) {
      RenderOneMap(table, root, r.scopeMap);
    }
    assert [segment] + [0] == [segment, 0];
    SameRoots(g, row, referred, |table.roots|);
    assert [row][..0] == [] && Expand(g, []) == [];
  }

  lemma {:induction false} PlainCutMeaning(g: Graph, t: Tree)
    requires Unfolds(g, t) && t.children == []
    ensures CutMeaning(g, t) == OwnRoots(g, t.view, |TableOf(g, t.view).roots|)
  {
    assert KidsCutMeaning(g, t.view, t.children) == [];
  }

  lemma {:induction false} MembersMeaning(g: Graph, root: ViewId, rows: seq<MemberRow>, n: nat)
    requires root in g && Candidate(g, root) && MembersOf(Refs(g, root), rows) && n <= |rows|
    requires KidsUnfold(g, root, FlatTree(g, root).children[..n])
    ensures Expand(g, AsRows(rows[..n])) == KidsCutMeaning(g, root, FlatTree(g, root).children[..n])
  {
    hide Expand, Refer, OwnRoots, CutMeaning, Unfolds;
    var kids := FlatTree(g, root).children[..n];
    if n == 0 {
      NothingExpands(g);
      assert rows[..0] == [] && kids == [];
    } else {
      var last := n - 1;
      assert rows[..n][..last] == rows[..last] && kids[..last] == FlatTree(g, root).children[..last];
      MembersMeaning(g, root, rows, last);
      var r := Refs(g, root)[last];
      assert IsPlain(g, g[root].refs[last].source);
      MemberMeaning(g, r, last);
      PlainCutMeaning(g, kids[last]);
      ExpandConcat(g, AsRows(rows[..last]), [AsRow(rows[last], last)]);
    }
  }

  /** The rows of the shortcut select what the view means, as every recursive plan of it does. */
  lemma {:induction false} ShortcutKeepsMeaning(g: Graph, root: ViewId, rows: seq<MemberRow>)
    requires ValidView(g, root) && Candidate(g, root) && Applicable(g, root) && MembersOf(Refs(g, root), rows)
    ensures var t := FlatTree(g, root);
      && UnfoldingOf(g, Key(root, false), t)
      && Expand(g, AsRows(rows)) == CutMeaning(g, t)
  {
    hide Expand, Candidate, MembersOf, KidsCutMeaning, AsRows;
    var t := FlatTree(g, root);
    FlatUnfolds(g, root);
    assert |rows| == |t.children| by { MemberCount(Refs(g, root), rows); }
    assert t.children[..|rows|] == t.children && rows[..|rows|] == rows;
    MembersMeaning(g, root, rows, |rows|);
  }

  lemma {:induction false} MemberCount(refs: seq<Reference>, rows: seq<MemberRow>)
    requires MembersOf(refs, rows)
    ensures |rows| == |refs|
  {
  }

  /** The fast form and the recursive one select the same roots. */
  lemma {:induction false} ShortcutIsPlan(
    g: Graph, root: ViewId, keepEmpty: bool, limits: Limits, rows: seq<MemberRow>, plan: seq<Row>,
    containers: set<ViewId>)
    requires ValidView(g, root) && Candidate(g, root) && Applicable(g, root) && MembersOf(Refs(g, root), rows)
    requires LeafResolver.AllJustified(
      LeafResolver.Task(g, root, keepEmpty, limits), LeafResolver.Planned(plan, containers))
    ensures Expand(g, AsRows(rows)) == Expand(g, plan)
  {
    hide Expand, CutMeaning, Rows, LeafResolver.Grounded, Unfolds, Applicable, Candidate, MembersOf, FlatTree;
    ShortcutKeepsMeaning(g, root, rows);
    var t := FlatTree(g, root);
    assert LeafResolver.Justified(g, keepEmpty, limits, t, LeafResolver.Planned(plan, containers));
    assert AllManifestsValid(g, t) by { AllValidManifests(g, t); }
    CutPlanKeepsMeaning(g, keepEmpty, t);
  }

  lemma {:induction false} AllValidManifests(g: Graph, t: Tree)
    requires AllValid(g, t)
    ensures AllManifestsValid(g, t)
  {
  }
}
