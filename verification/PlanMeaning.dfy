/**
 What a segmented view means, and that its leaf plan means the same.

 The meaning is defined without plans: every view yields its own roots and those of
 all its references, every reference applies its selector to the roots of its
 source's own table and its scope map to everything it yields.
 */
module PlanMeaning {
  import opened Wrappers
  import opened Manifests
  import opened Unfoldings
  import opened LeafPlans

  /** One selected root: where it was found, which one it is, and its nodes' scopes as renamed. */
  datatype Selected = Selected(
    path: seq<nat>, view: ViewId, root: nat, scopes: seq<Option<Scope>>)

  // ----- the complete unfolding, INCLUDE references followed too

  ghost predicate Complete(g: Graph, t: Tree)
    decreases t
  {
    && t.view in g && !t.local
    && |t.children| == |Refs(g, t.view)|
    && forall i | 0 <= i < |t.children| ::
         t.children[i].view == Refs(g, t.view)[i].source && Complete(g, t.children[i])
  }

  /** What the resolver looks at: the complete unfolding cut below INCLUDE references. */
  ghost function Prune(g: Graph, t: Tree, local: bool): Tree
    requires Complete(g, t)
    decreases t
  {
    Tree(t.view, local,
      if local then [] else
        seq(|t.children|, i requires 0 <= i < |t.children| =>
          Prune(g, t.children[i], Refs(g, t.view)[i].posting.Include?)))
  }

  ghost function PruneKids(g: Graph, t: Tree, n: nat): seq<Tree>
    requires Complete(g, t) && n <= |t.children|
  {
    Prune(g, t, false).children[..n]
  }

  lemma {:induction false} PruneParts(g: Graph, t: Tree, local: bool)
    requires Complete(g, t)
    ensures var pruned := Prune(g, t, local);
      && KeyOf(pruned) == Key(t.view, local)
      && |pruned.children| == (if local then 0 else |t.children|)
      && forall i | 0 <= i < |pruned.children| ::
           pruned.children[i] == Prune(g, t.children[i], Refs(g, t.view)[i].posting.Include?)
  {
  }

  lemma {:induction false} PruneKidsGrow(g: Graph, t: Tree, n: nat)
    requires Complete(g, t) && n < |t.children|
    ensures |PruneKids(g, t, n)| == n
    ensures PruneKids(g, t, n + 1)
      == PruneKids(g, t, n) + [Prune(g, t.children[n], Refs(g, t.view)[n].posting.Include?)]
  {
    PruneParts(g, t, false);
  }

  lemma {:induction false} PruneUnfolds(g: Graph, t: Tree, local: bool)
    requires Complete(g, t)
    ensures UnfoldingOf(g, Key(t.view, local), Prune(g, t, local))
    decreases t
  {
    var pruned := Prune(g, t, local);
    PruneParts(g, t, local);
    hide Prune;
    forall i | 0 <= i < |pruned.children|
      ensures UnfoldingOf(g, ChildKey(Refs(g, t.view)[i]), pruned.children[i])
    {
      PruneUnfolds(g, t.children[i], Refs(g, t.view)[i].posting.Include?);
    }
    assert KidsUnfold(g, t.view, pruned.children);
  }

  // ----- the meaning

  function NodeScope(table: Table, node: nat): Option<Scope> {
    if node < |table.nodes| then table.nodes[node] else None
  }

  function MapNode(m: ScopeMap, scope: Option<Scope>): Option<Scope> {
    if scope.Some? then Some(MapScope(m, scope.value)) else None
  }

  function EffectiveNode(chain: seq<ScopeMap>, scope: Option<Scope>): Option<Scope> {
    if scope.Some? then Some(Effective(chain, scope.value)) else None
  }

  /** The scopes of a root's nodes after a chain of maps. */
  function Render(table: Table, root: seq<nat>, chain: seq<ScopeMap>): seq<Option<Scope>> {
    seq(|root|, i requires 0 <= i < |root| => EffectiveNode(chain, NodeScope(table, root[i])))
  }

  function MapScopes(m: ScopeMap, scopes: seq<Option<Scope>>): seq<Option<Scope>> {
    seq(|scopes|, i requires 0 <= i < |scopes| => MapNode(m, scopes[i]))
  }

  /** A root found right at the source of a reference is one of the source's own. */
  predicate Picks(posting: Posting, item: Selected) {
    match posting
    case All => true
    case Include(ids) => |item.path| == 1 && item.root in ids
    case Exclude(ids) => !(|item.path| == 1 && item.root in ids)
  }

  function Refer(r: Reference, segment: nat, items: seq<Selected>): seq<Selected> {
    if items == [] then [] else
      var last := items[|items| - 1];
      Refer(r, segment, items[..|items| - 1]) +
      if Picks(r.posting, last)
      then [last.(path := [segment] + last.path, scopes := MapScopes(r.scopeMap, last.scopes))]
      else []
  }

  /** The first `n` roots of a view's own table. */
  function OwnRoots(g: Graph, v: ViewId, n: nat): seq<Selected>
    requires n <= |TableOf(g, v).roots|
  {
    if n == 0 then [] else
      OwnRoots(g, v, n - 1) +
      [Selected([|Refs(g, v)|], v, n, Render(TableOf(g, v), TableOf(g, v).roots[n - 1], []))]
  }

  ghost function Meaning(g: Graph, t: Tree): seq<Selected>
    requires Complete(g, t)
    decreases t, 1
  {
    KidsMeaning(g, t, |t.children|) + OwnRoots(g, t.view, |TableOf(g, t.view).roots|)
  }

  ghost function KidsMeaning(g: Graph, t: Tree, n: nat): seq<Selected>
    requires Complete(g, t) && n <= |t.children|
    decreases t, 0, n
  {
    if n == 0 then [] else
      KidsMeaning(g, t, n - 1) + Refer(Refs(g, t.view)[n - 1], n - 1, Meaning(g, t.children[n - 1]))
  }

  // ----- what a plan selects

  predicate RowSelects(row: Row, root: nat) {
    && (row.included.Some? ==> root in row.included.value)
    && (row.excluded.Some? ==> root !in row.excluded.value)
  }

  /** The first `n` roots of a row's table, as the row selects and renames them. */
  function RowRoots(g: Graph, row: Row, n: nat): seq<Selected>
    requires n <= |TableOf(g, row.view).roots|
  {
    if n == 0 then [] else RowRoots(g, row, n - 1) + RowRoot(g, row, n)
  }

  function RowRoot(g: Graph, row: Row, n: nat): seq<Selected>
    requires 0 < n <= |TableOf(g, row.view).roots|
  {
    var table := TableOf(g, row.view);
    if RowSelects(row, n)
    then [Selected(row.path, row.view, n, Render(table, table.roots[n - 1], row.chain))]
    else []
  }

  function Expand(g: Graph, rows: seq<Row>): seq<Selected> {
    if rows == [] then [] else
      var last := rows[|rows| - 1];
      Expand(g, rows[..|rows| - 1]) + RowRoots(g, last, |TableOf(g, last.view).roots|)
  }

  // ----- scope maps that do not apply change nothing

  lemma {:induction false} MapScopeWithoutRow(m: ScopeMap, s: Scope)
    requires forall j | 0 <= j < |m| :: m[j].source != s
    ensures MapScope(m, s) == s
    decreases |m|
  {
    if m != [] {
      assert m[0].source != s;
      MapScopeWithoutRow(m[1..], s);
    }
  }

  /** Keeping only the maps that apply gives every scope of the table the same name. */
  lemma {:induction false} PrunedChainIsExact(table: Table, chain: seq<ScopeMap>, m: ScopeMap, node: nat)
    requires node < |table.nodes| && table.nodes[node].Some?
    ensures var s := table.nodes[node].value;
      Effective(ExtendChain(table, chain, m), s) == MapScope(m, Effective(chain, s))
  {
    var s := table.nodes[node].value;
    if m != [] && ScopeMapApplies(table, chain, m) {
      assert (chain + [m])[..|chain|] == chain;
    } else {
      MapScopeWithoutRow(m, Effective(chain, s));
    }
  }

  lemma {:induction false} RenderExtends(table: Table, root: seq<nat>, chain: seq<ScopeMap>, m: ScopeMap)
    ensures Render(table, root, ExtendChain(table, chain, m)) == MapScopes(m, Render(table, root, chain))
  {
    forall i | 0 <= i < |root|
      ensures EffectiveNode(ExtendChain(table, chain, m), NodeScope(table, root[i]))
        == MapNode(m, EffectiveNode(chain, NodeScope(table, root[i])))
    {
      if NodeScope(table, root[i]).Some? {
        PrunedChainIsExact(table, chain, m, root[i]);
      }
    }
  }

  // ----- the shape of a plan where no view repeats

  lemma {:induction false} ViewsAreNew(t: Tree, above: set<ViewId>)
    requires NoRepeat(t, above)
    ensures Views(t) !! above
    decreases t
  {
    forall k | k in Keys(t) ensures k.view !in above {
      if k != KeyOf(t) {
        var i :| 0 <= i < |t.children| && k in Keys(t.children[i]);
        ViewsAreNew(t.children[i], above + {t.view});
        assert k.view in Views(t.children[i]);
      }
    }
  }

  /** The rows of a source as a reference may meet them: its own rows are bare and have one-step paths. */
  ghost predicate WellShaped(rows: seq<Row>, source: ViewId) {
    forall i | 0 <= i < |rows| ::
      && |rows[i].path| >= 1
      && (rows[i].view == source <==> |rows[i].path| == 1)
      && (rows[i].view == source ==> rows[i].included.None? && rows[i].excluded.None?)
  }

  ghost predicate RowsAmong(rows: seq<Row>, views: set<ViewId>) {
    forall i | 0 <= i < |rows| :: rows[i].view in views
  }

  lemma {:induction false} PostingsOnShape(rows: seq<Row>, source: ViewId, posting: Posting, views: set<ViewId>)
    requires WellShaped(rows, source) && RowsAmong(rows, views)
    ensures var kept := ApplyPostings(rows, source, posting);
      && kept.Some? && RowsAmong(kept.value, views)
      && forall i | 0 <= i < |kept.value| :: |kept.value[i].path| >= 1
    decreases |rows|
  {
    if rows != [] && !posting.All? {
      PostingsOnShape(rows[..|rows| - 1], source, posting, views);
    }
  }

  lemma {:induction false} ReferenceOnShape(
    g: Graph, r: Reference, segment: nat, rows: seq<Row>, views: set<ViewId>)
    requires WellShaped(rows, r.source) && RowsAmong(rows, views)
    ensures var applied := ApplyReference(g, r, segment, rows);
      && applied.Some? && RowsAmong(applied.value, views)
      && forall i | 0 <= i < |applied.value| :: |applied.value[i].path| >= 2
  {
    PostingsOnShape(ApplyScopeMap(g, rows, r.scopeMap), r.source, r.posting, views);
  }

  /** No leaf ever receives two selectors, so the plan exists. */
  lemma {:induction false} PlanIsWellShaped(g: Graph, keepEmpty: bool, t: Tree, above: set<ViewId>)
    requires Unfolds(g, t) && NoRepeat(t, above)
    ensures Rows(g, keepEmpty, t).Some?
    ensures WellShaped(Rows(g, keepEmpty, t).value, t.view)
    ensures RowsAmong(Rows(g, keepEmpty, t).value, Views(t))
    decreases t
  {
    RootIsKey(t);
    KidsAreWellShaped(g, keepEmpty, t, t.children, above + {t.view});
  }

  lemma {:induction false} KidsAreWellShaped(
    g: Graph, keepEmpty: bool, t: Tree, kids: seq<Tree>, above: set<ViewId>)
    requires KidsUnfold(g, t.view, kids) && kids <= t.children && t.view in above
    requires forall i | 0 <= i < |kids| :: NoRepeat(kids[i], above)
    ensures var rows := KidsRows(g, keepEmpty, t.view, kids);
      && rows.Some? && RowsAmong(rows.value, Views(t) - above)
      && forall i | 0 <= i < |rows.value| :: |rows.value[i].path| >= 2
    decreases kids
  {
    hide Rows, ApplyReference, WellShaped, Unfolds, NoRepeat, Keys;
    if kids != [] {
      var last := |kids| - 1;
      KidsAreWellShaped(g, keepEmpty, t, kids[..last], above);
      PlanIsWellShaped(g, keepEmpty, kids[last], above);
      ViewsAreNew(kids[last], above);
      KeysOfChild(t, last);
      assert KeyOf(kids[last]) == ChildKey(Refs(g, t.view)[last]);
      ReferenceOnShape(g, Refs(g, t.view)[last], last, Rows(g, keepEmpty, kids[last]).value, Views(t) - above);
    }
  }

  // ----- one reference, on plans and on meanings

  /** A selector meets only bare rows with one-step paths; ALL meets any rows. */
  ghost predicate Fits(r: Reference, rows: seq<Row>) {
    r.posting.All? || WellShaped(rows, r.source)
  }

  lemma {:induction false} RowKeepsMeaning(g: Graph, r: Reference, segment: nat, row: Row, n: nat)
    requires n <= |TableOf(g, row.view).roots|
    requires Fits(r, [row])
    ensures Refer(r, segment, RowRoots(g, row, n)) ==
      if r.posting.Include? && row.view != r.source then []
      else RowRoots(g, ReferredRow(g, r, segment, row), n)
  {
    if n > 0 {
      RowKeepsMeaning(g, r, segment, row, n - 1);
      RootKeepsMeaning(g, r, segment, row, n);
      ReferConcat(r, segment, RowRoots(g, row, n - 1), RowRoot(g, row, n));
    }
  }

  lemma {:induction false} RootKeepsMeaning(g: Graph, r: Reference, segment: nat, row: Row, n: nat)
    requires 0 < n <= |TableOf(g, row.view).roots|
    requires Fits(r, [row])
    ensures Refer(r, segment, RowRoot(g, row, n)) ==
      if r.posting.Include? && row.view != r.source then []
      else RowRoot(g, ReferredRow(g, r, segment, row), n)
  {
    var table := TableOf(g, row.view);
    var items := RowRoot(g, row, n);
    assert [row][0] == row;
    RenderExtends(table, table.roots[n - 1], row.chain, r.scopeMap);
    hide Render, MapScopes, ExtendChain;
    if RowSelects(row, n) {
      assert items[..0] == [];
    }
  }

  lemma {:induction false} FitsParts(r: Reference, rows: seq<Row>)
    requires Fits(r, rows) && rows != []
    ensures Fits(r, rows[..|rows| - 1]) && Fits(r, [rows[|rows| - 1]])
  {
  }

  lemma {:induction false} ReferenceKeepsMeaning(g: Graph, r: Reference, segment: nat, rows: seq<Row>)
    requires Fits(r, rows)
    ensures var applied := ApplyReference(g, r, segment, rows);
      applied.Some? && Expand(g, applied.value) == Refer(r, segment, Expand(g, rows))
    decreases |rows|
  {
    hide Fits, WellShaped;
    if rows != [] {
      var init, last := rows[..|rows| - 1], rows[|rows| - 1];
      FitsParts(r, rows);
      ReferenceKeepsMeaning(g, r, segment, init);
      var roots := RowRoots(g, last, |TableOf(g, last.view).roots|);
      RowKeepsMeaning(g, r, segment, last, |TableOf(g, last.view).roots|);
      ReferConcat(r, segment, Expand(g, init), roots);
      ReferenceOnLast(g, r, segment, rows);
      var kept := ApplyReference(g, r, segment, init).value;
      var more := kept + [ReferredRow(g, r, segment, last)];
      assert more[..|more| - 1] == kept;
    }
  }

  lemma {:induction false} PostingsOnLast(rows: seq<Row>, r: Reference)
    requires Fits(r, rows) && rows != []
    ensures var last := rows[|rows| - 1];
      var before := ApplyPostings(rows[..|rows| - 1], r.source, r.posting);
      before.Some? ==> ApplyPostings(rows, r.source, r.posting) == Some(
        if r.posting.Include? && last.view != r.source then before.value
        else before.value + [SelectedRow(last, r.source, r.posting)])
  {
    var init, last := rows[..|rows| - 1], rows[|rows| - 1];
    assert rows == init + [last];
    if r.posting.All? {
      assert ApplyPostings(init, r.source, r.posting) == Some(init);
    } else if last.view == r.source {
      FitsParts(r, rows);
      assert [last][0] == last;
    }
  }

  lemma {:induction false} PrependOnLast(rows: seq<Row>, last: Row, segment: nat)
    ensures PrependSegment(rows + [last], segment) ==
      PrependSegment(rows, segment) + [last.(path := [segment] + last.path)]
  {
  }

  /** A reference treats the rows one by one. */
  lemma {:induction false} ReferenceOnLast(g: Graph, r: Reference, segment: nat, rows: seq<Row>)
    requires Fits(r, rows) && rows != []
    ensures var last := rows[|rows| - 1];
      var before := ApplyReference(g, r, segment, rows[..|rows| - 1]);
      var after := ApplyReference(g, r, segment, rows);
      before.Some? ==> after == Some(
        if r.posting.Include? && last.view != r.source then before.value
        else before.value + [ReferredRow(g, r, segment, last)])
  {
    hide ExtendChain, ApplyPostings, PrependSegment;
    var init, last := rows[..|rows| - 1], rows[|rows| - 1];
    var mapped := ApplyScopeMap(g, rows, r.scopeMap);
    assert mapped[..|mapped| - 1] == ApplyScopeMap(g, init, r.scopeMap);
    var moved := mapped[|mapped| - 1];
    PostingsOnLast(mapped, r);
    var before := ApplyPostings(ApplyScopeMap(g, init, r.scopeMap), r.source, r.posting);
    if before.Some? {
      PrependOnLast(before.value, SelectedRow(moved, r.source, r.posting), segment);
    }
  }

  lemma {:induction false} ReferConcat(r: Reference, segment: nat, a: seq<Selected>, b: seq<Selected>)
    ensures Refer(r, segment, a + b) == Refer(r, segment, a) + Refer(r, segment, b)
    decreases |b|
  {
    if b == [] {
      assert a + b == a;
    } else {
      var init := b[..|b| - 1];
      assert (a + b)[..|a + b| - 1] == a + init;
      ReferConcat(r, segment, a, init);
    }
  }

  // ----- an INCLUDE reference and its source's own roots

  lemma {:induction false} LocalRowMeaning(g: Graph, v: ViewId, n: nat)
    requires n <= |TableOf(g, v).roots|
    ensures RowRoots(g, LocalRow(g, v), n) == OwnRoots(g, v, n)
    ensures LongPaths(OwnRoots(g, v, n), 1)
  {
    if n > 0 {
      LocalRowMeaning(g, v, n - 1);
    }
  }

  ghost predicate LongPaths(items: seq<Selected>, n: nat) {
    forall i | 0 <= i < |items| :: |items[i].path| >= n
  }

  lemma {:induction false} ReferredPathsAreLonger(r: Reference, segment: nat, items: seq<Selected>)
    requires LongPaths(items, 1)
    ensures LongPaths(Refer(r, segment, items), 2)
    decreases |items|
  {
    if items != [] {
      var before := Refer(r, segment, items[..|items| - 1]);
      ReferredPathsAreLonger(r, segment, items[..|items| - 1]);
      assert LongPaths(before, 2);
    }
  }

  lemma {:induction false} MeaningPaths(g: Graph, t: Tree)
    requires Complete(g, t)
    ensures LongPaths(Meaning(g, t), 1)
    decreases t, 1
  {
    KidsMeaningPaths(g, t, |t.children|);
    LocalRowMeaning(g, t.view, |TableOf(g, t.view).roots|);
  }

  lemma {:induction false} KidsMeaningPaths(g: Graph, t: Tree, n: nat)
    requires Complete(g, t) && n <= |t.children|
    ensures LongPaths(KidsMeaning(g, t, n), 2)
    decreases t, 0, n
  {
    if n > 0 {
      var r, child := Refs(g, t.view)[n - 1], Meaning(g, t.children[n - 1]);
      KidsMeaningPaths(g, t, n - 1);
      MeaningPaths(g, t.children[n - 1]);
      ReferredPathsAreLonger(r, n - 1, child);
      LongPathsConcat(KidsMeaning(g, t, n - 1), Refer(r, n - 1, child), 2);
    }
  }

  lemma {:induction false} LongPathsConcat(a: seq<Selected>, b: seq<Selected>, n: nat)
    requires LongPaths(a, n) && LongPaths(b, n)
    ensures LongPaths(a + b, n)
  {
  }

  lemma {:induction false} IncludeDropsForeign(r: Reference, segment: nat, items: seq<Selected>)
    requires r.posting.Include? && LongPaths(items, 2)
    ensures Refer(r, segment, items) == []
    decreases |items|
  {
    if items != [] {
      IncludeDropsForeign(r, segment, items[..|items| - 1]);
    }
  }

  /** An INCLUDE reference sees nothing of a view but the view's own roots. */
  lemma {:induction false} IncludeMeaning(g: Graph, r: Reference, segment: nat, t: Tree)
    requires r.posting.Include? && Complete(g, t)
    ensures Refer(r, segment, Meaning(g, t))
      == Refer(r, segment, OwnRoots(g, t.view, |TableOf(g, t.view).roots|))
  {
    var kids := KidsMeaning(g, t, |t.children|);
    KidsMeaningPaths(g, t, |t.children|);
    IncludeDropsForeign(r, segment, kids);
    ReferConcat(r, segment, kids, OwnRoots(g, t.view, |TableOf(g, t.view).roots|));
  }

  // ----- valid views

  ghost predicate AllViewsValid(g: Graph, t: Tree)
    decreases t
  {
    ValidView(g, t.view) && forall i | 0 <= i < |t.children| :: AllViewsValid(g, t.children[i])
  }

  lemma {:induction false} OwnLeafMeaning(g: Graph, keepEmpty: bool, v: ViewId)
    requires ValidManifest(g, v)
    ensures Expand(g, if HasLocalLeaf(g, keepEmpty, v) then [LocalRow(g, v)] else [])
      == OwnRoots(g, v, |TableOf(g, v).roots|)
  {
    LocalRowMeaning(g, v, |TableOf(g, v).roots|);
    var own := [LocalRow(g, v)];
    assert own[..0] == [];
  }

  lemma {:induction false} ExpandConcat(g: Graph, a: seq<Row>, b: seq<Row>)
    ensures Expand(g, a + b) == Expand(g, a) + Expand(g, b)
    decreases |b|
  {
    hide RowRoots;
    if b == [] {
      assert a + b == a;
    } else {
      var init := b[..|b| - 1];
      assert (a + b)[..|a + b| - 1] == a + init;
      ExpandConcat(g, a, init);
    }
  }

  lemma {:induction false} PruneKeepsNoRepeat(g: Graph, t: Tree, local: bool, above: set<ViewId>)
    requires Complete(g, t) && NoRepeat(t, above)
    ensures NoRepeat(Prune(g, t, local), above)
    decreases t
  {
    var pruned := Prune(g, t, local);
    PruneParts(g, t, local);
    hide Prune;
    forall i | 0 <= i < |pruned.children| ensures NoRepeat(pruned.children[i], above + {t.view}) {
      PruneKeepsNoRepeat(g, t.children[i], Refs(g, t.view)[i].posting.Include?, above + {t.view});
    }
  }

  // ----- the meaning of a cut unfolding

  /** The meaning again, read off the unfolding that the resolver looks at. */
  ghost function CutMeaning(g: Graph, t: Tree): seq<Selected>
    requires Unfolds(g, t)
    decreases t
  {
    KidsCutMeaning(g, t.view, t.children) + OwnRoots(g, t.view, |TableOf(g, t.view).roots|)
  }

  ghost function KidsCutMeaning(g: Graph, v: ViewId, kids: seq<Tree>): seq<Selected>
    requires KidsUnfold(g, v, kids)
    decreases kids
  {
    if kids == [] then [] else
      var last := |kids| - 1;
      KidsCutMeaning(g, v, kids[..last]) + Refer(Refs(g, v)[last], last, CutMeaning(g, kids[last]))
  }

  /** Cutting below INCLUDE loses nothing of the meaning, whatever views repeat. */
  lemma {:induction false} CutKeepsMeaning(g: Graph, t: Tree)
    requires Complete(g, t)
    ensures Unfolds(g, Prune(g, t, false)) && CutMeaning(g, Prune(g, t, false)) == Meaning(g, t)
    decreases t, 1
  {
    hide Prune, Complete, Refer, OwnRoots;
    PruneParts(g, t, false);
    PruneUnfolds(g, t, false);
    KidsCutKeepsMeaning(g, t, |t.children|);
    AllPruneKids(g, t);
  }

  lemma {:induction false} AllPruneKids(g: Graph, t: Tree)
    requires Complete(g, t)
    ensures PruneKids(g, t, |t.children|) == Prune(g, t, false).children
  {
    PruneParts(g, t, false);
  }

  lemma {:induction false} NoPruneKids(g: Graph, t: Tree)
    requires Complete(g, t)
    ensures PruneKids(g, t, 0) == []
  {
  }

  lemma {:induction false} CompleteChild(g: Graph, t: Tree, i: nat)
    requires Complete(g, t) && i < |t.children|
    ensures |t.children| == |Refs(g, t.view)|
    ensures Complete(g, t.children[i]) && t.children[i].view == Refs(g, t.view)[i].source
  {
  }

  lemma {:induction false} KidsCutKeepsMeaning(g: Graph, t: Tree, n: nat)
    requires Complete(g, t) && n <= |t.children|
    ensures KidsUnfold(g, t.view, PruneKids(g, t, n))
    ensures KidsCutMeaning(g, t.view, PruneKids(g, t, n)) == KidsMeaning(g, t, n)
    decreases t, 0, n
  {
    hide Prune, PruneKids, Complete, Refer, OwnRoots, Unfolds, Meaning, CutMeaning;
    if n == 0 {
      NoPruneKids(g, t);
    } else {
      CompleteChild(g, t, n - 1);
      var child, r := t.children[n - 1], Refs(g, t.view)[n - 1];
      KidsCutKeepsMeaning(g, t, n - 1);
      PruneKidsGrow(g, t, n - 1);
      PruneUnfolds(g, child, r.posting.Include?);
      if r.posting.Include? {
        IncludeMeaning(g, r, n - 1, child);
        LocalCutMeaning(g, Prune(g, child, true));
      } else {
        CutKeepsMeaning(g, child);
      }
      var kids, pruned := PruneKids(g, t, n - 1), Prune(g, child, r.posting.Include?);
      assert (kids + [pruned])[..n - 1] == kids;
    }
  }

  lemma {:induction false} LocalCutMeaning(g: Graph, t: Tree)
    requires Unfolds(g, t) && t.local
    ensures CutMeaning(g, t) == OwnRoots(g, t.view, |TableOf(g, t.view).roots|)
  {
    assert t.children == [] && KidsCutMeaning(g, t.view, t.children) == [];
  }

  // ----- a row of the source below the source already carries a selector

  ghost function Depth(t: Tree): nat
    decreases t
  {
    1 + KidsDepth(t.children)
  }

  ghost function KidsDepth(kids: seq<Tree>): (n: nat)
    ensures forall i | 0 <= i < |kids| :: Depth(kids[i]) <= n
    decreases kids
  {
    if kids == [] then 0 else
      var prior, last := KidsDepth(kids[..|kids| - 1]), Depth(kids[|kids| - 1]);
      if last > prior then last else prior
  }

  /** A bare row was reached without INCLUDE: the unfolding of its view is part of the unfolding. */
  ghost predicate Reached(g: Graph, depth: nat, row: Row) {
    Bare(row) ==> exists s :: UnfoldingOf(g, Key(row.view, false), s) && Depth(s) <= depth
  }

  /** Rows with one-step paths are the view's own and bare, all others lie at least one step below. */
  ghost predicate Layered(g: Graph, t: Tree, rows: seq<Row>) {
    forall i | 0 <= i < |rows| ::
      && |rows[i].path| >= 1
      && (|rows[i].path| == 1 ==> rows[i].view == t.view && Bare(rows[i]))
      && (|rows[i].path| > 1 ==> Reached(g, Depth(t) - 1, rows[i]))
  }

  lemma {:induction false} PlanIsLayered(g: Graph, keepEmpty: bool, t: Tree)
    requires Unfolds(g, t) && Rows(g, keepEmpty, t).Some?
    ensures Layered(g, t, Rows(g, keepEmpty, t).value)
    decreases t
  {
    hide Reached, Bare, Depth, KidsDepth;
    KidsPlanIsLayered(g, keepEmpty, t, t.children);
    LocalRowIsBare(g, t.view);
  }

  lemma {:induction false} LocalRowIsBare(g: Graph, v: ViewId)
    ensures Bare(LocalRow(g, v)) && |LocalRow(g, v).path| == 1 && LocalRow(g, v).view == v
  {
  }

  ghost predicate AllBelow(g: Graph, depth: nat, rows: seq<Row>) {
    forall i | 0 <= i < |rows| :: |rows[i].path| > 1 && Reached(g, depth, rows[i])
  }

  lemma {:induction false} KidsPlanIsLayered(g: Graph, keepEmpty: bool, t: Tree, kids: seq<Tree>)
    requires KidsUnfold(g, t.view, kids) && kids <= t.children && KidsRows(g, keepEmpty, t.view, kids).Some?
    ensures AllBelow(g, Depth(t) - 1, KidsRows(g, keepEmpty, t.view, kids).value)
    decreases kids
  {
    hide Reached, Bare, Rows, Layered, ApplyReference, Unfolds, KidsDepth;
    if kids != [] {
      var last := |kids| - 1;
      KidsPlanIsLayered(g, keepEmpty, t, kids[..last]);
      PlanIsLayered(g, keepEmpty, kids[last]);
      ChildIsShallower(t, last);
      assert t.children[last] == kids[last];
      ChildPlanIsLayered(g, Depth(t) - 1, Refs(g, t.view)[last], last, kids[last],
        Rows(g, keepEmpty, kids[last]).value);
    }
  }

  lemma {:induction false} ChildIsShallower(t: Tree, i: nat)
    requires i < |t.children|
    ensures Depth(t.children[i]) < Depth(t)
  {
  }

  lemma {:induction false} ChildPlanIsLayered(
    g: Graph, depth: nat, r: Reference, segment: nat, c: Tree, rows: seq<Row>)
    requires UnfoldingOf(g, ChildKey(r), c) && Depth(c) <= depth && Layered(g, c, rows)
    requires ApplyReference(g, r, segment, rows).Some?
    ensures AllBelow(g, depth, ApplyReference(g, r, segment, rows).value)
  {
    hide ApplyReference, Depth;
    var applied := ApplyReference(g, r, segment, rows).value;
    forall k | 0 <= k < |applied| ensures |applied[k].path| > 1 && Reached(g, depth, applied[k]) {
      ReferredRowsStem(g, r, segment, rows, k);
      var i :| 0 <= i < |rows|
        && applied[k] == ReferredRow(g, r, segment, rows[i])
        && (r.posting.Include? ==> rows[i].view == r.source)
        && (Selects(r, rows[i].view) ==> Bare(rows[i]));
      StemIsReached(g, depth, r, segment, c, rows[i]);
    }
  }

  lemma {:induction false} StemIsReached(g: Graph, depth: nat, r: Reference, segment: nat, c: Tree, row: Row)
    requires UnfoldingOf(g, ChildKey(r), c) && Depth(c) <= depth
    requires |row.path| == 1 ==> row.view == c.view
    requires |row.path| > 1 ==> Reached(g, Depth(c) - 1, row)
    requires |row.path| >= 1 && (r.posting.Include? ==> row.view == r.source)
    ensures Reached(g, depth, ReferredRow(g, r, segment, row))
  {
    hide Depth, Unfolds, ExtendChain;
    if Bare(ReferredRow(g, r, segment, row)) {
      assert Bare(row);
      if |row.path| == 1 {
        assert UnfoldingOf(g, Key(row.view, false), c);
      } else {
        var s :| UnfoldingOf(g, Key(row.view, false), s) && Depth(s) <= Depth(c) - 1;
      }
    }
  }

  /** An unfolding has no unfolding of its own view below it. */
  lemma {:induction false} DeeperOwnRowIsSelected(g: Graph, t: Tree, row: Row)
    requires Unfolds(g, t) && !t.local && row.view == t.view && Reached(g, Depth(t) - 1, row)
    ensures !Bare(row)
  {
    hide Depth;
    if Bare(row) {
      var s :| UnfoldingOf(g, Key(row.view, false), s) && Depth(s) <= Depth(t) - 1;
      UnfoldingIsUnique(g, s, t);
      assert false;
    }
  }

  /** Where a selector finds nothing to refuse, the rows are as the meaning expects them. */
  lemma {:induction false} AcceptedRowsFit(g: Graph, r: Reference, segment: nat, c: Tree, rows: seq<Row>)
    requires UnfoldingOf(g, ChildKey(r), c) && Layered(g, c, rows)
    requires c.local ==> forall i | 0 <= i < |rows| :: |rows[i].path| == 1
    requires ApplyReference(g, r, segment, rows).Some?
    ensures Fits(r, rows)
  {
    hide ApplyPostings, Reached, Depth;
    if !r.posting.All? {
      forall i | 0 <= i < |rows|
        ensures rows[i].view == r.source <==> |rows[i].path| == 1
        ensures rows[i].view == r.source ==> Bare(rows[i])
      {
        if rows[i].view == r.source {
          AcceptedIsBare(ApplyScopeMap(g, rows, r.scopeMap), r.source, r.posting, i);
          if |rows[i].path| > 1 {
            DeeperOwnRowIsSelected(g, c, rows[i]);
          }
        }
      }
    }
  }

  lemma {:induction false} AcceptedIsBare(rows: seq<Row>, source: ViewId, posting: Posting, i: nat)
    requires !posting.All? && ApplyPostings(rows, source, posting).Some?
    requires i < |rows| && rows[i].view == source
    ensures Bare(rows[i])
    decreases |rows|
  {
    if i < |rows| - 1 {
      AcceptedIsBare(rows[..|rows| - 1], source, posting, i);
    }
  }

  // ----- an INCLUDE reference needs only its source's own rows

  /** All rows on a view's own table lie right at the view. */
  ghost predicate OwnRowsAreDirect(rows: seq<Row>, v: ViewId) {
    forall i | 0 <= i < |rows| && rows[i].view == v :: |rows[i].path| == 1
  }

  /**
   Resolving an INCLUDE source only locally is resolving it fully and filtering afterwards
   exactly when the source is not met again below itself.
   */
  lemma {:induction false} IncludeNeedsOnlyOwnRows(
    g: Graph, keepEmpty: bool, full: Tree, local: Tree, ids: seq<nat>)
    requires Unfolds(g, full) && Unfolds(g, local) && !full.local && local.local && local.view == full.view
    requires Rows(g, keepEmpty, full).Some?
    ensures Rows(g, keepEmpty, local).Some?
    ensures ApplyPostings(Rows(g, keepEmpty, full).value, full.view, Include(ids))
        == ApplyPostings(Rows(g, keepEmpty, local).value, full.view, Include(ids))
      <==> OwnRowsAreDirect(Rows(g, keepEmpty, full).value, full.view)
  {
    hide Layered, ApplyPostings;
    LocalRows(g, keepEmpty, local);
    PlanIsLayered(g, keepEmpty, full);
    var rows := Rows(g, keepEmpty, full).value;
    var kids := KidsRows(g, keepEmpty, full.view, full.children).value;
    var own := if HasLocalLeaf(g, keepEmpty, full.view) then [LocalRow(g, full.view)] else [];
    if OwnRowsAreDirect(rows, full.view) {
      KidsPlanIsLayered(g, keepEmpty, full, full.children);
      forall i | 0 <= i < |kids| ensures kids[i].view != full.view {
        assert rows[i] == kids[i];
      }
      ForeignRowsAreDropped(kids, own, full.view, ids);
    } else {
      var i :| 0 <= i < |rows| && rows[i].view == full.view && |rows[i].path| != 1;
      DeeperOwnRowIsRefused(g, full, rows, ids, i);
      OwnRowIsAccepted(g, keepEmpty, full.view, ids);
    }
  }

  lemma {:induction false} DeeperOwnRowIsRefused(g: Graph, t: Tree, rows: seq<Row>, ids: seq<nat>, i: nat)
    requires Unfolds(g, t) && !t.local && Layered(g, t, rows)
    requires i < |rows| && rows[i].view == t.view && |rows[i].path| != 1
    ensures ApplyPostings(rows, t.view, Include(ids)).None?
  {
    hide ApplyPostings, Reached, Depth;
    DeeperOwnRowIsSelected(g, t, rows[i]);
    if ApplyPostings(rows, t.view, Include(ids)).Some? {
      AcceptedIsBare(rows, t.view, Include(ids), i);
    }
  }

  lemma {:induction false} OwnRowIsAccepted(g: Graph, keepEmpty: bool, v: ViewId, ids: seq<nat>)
    ensures ApplyPostings(if HasLocalLeaf(g, keepEmpty, v) then [LocalRow(g, v)] else [], v, Include(ids)).Some?
  {
    assert [LocalRow(g, v)][..0] == [];
  }

  lemma {:induction false} ForeignRowsAreDropped(foreign: seq<Row>, own: seq<Row>, source: ViewId, ids: seq<nat>)
    requires forall i | 0 <= i < |foreign| :: foreign[i].view != source
    requires |own| <= 1
    ensures ApplyPostings(foreign + own, source, Include(ids)) == ApplyPostings(own, source, Include(ids))
    decreases |foreign| + |own|
  {
    if own != [] {
      assert (foreign + own)[..|foreign + own| - 1] == foreign;
      assert own[..0] == [];
      assert foreign + [] == foreign;
      ForeignRowsAreDropped(foreign, [], source, ids);
    } else if foreign != [] {
      assert foreign + [] == foreign;
      ForeignRowsAreDropped(foreign[..|foreign| - 1], [], source, ids);
      assert foreign[..|foreign| - 1] + [] == foreign[..|foreign| - 1];
    }
  }

  /** Where no view repeats the source is not met again. */
  lemma {:induction false} IncludeWithoutRepeats(
    g: Graph, keepEmpty: bool, full: Tree, local: Tree, ids: seq<nat>)
    requires Unfolds(g, full) && Unfolds(g, local) && !full.local && local.local && local.view == full.view
    requires NoRepeat(full, {})
    ensures Rows(g, keepEmpty, full).Some? && Rows(g, keepEmpty, local).Some?
    ensures ApplyPostings(Rows(g, keepEmpty, full).value, full.view, Include(ids))
      == ApplyPostings(Rows(g, keepEmpty, local).value, full.view, Include(ids))
  {
    hide ApplyPostings, Rows, Unfolds, NoRepeat;
    PlanIsWellShaped(g, keepEmpty, full, {});
    IncludeNeedsOnlyOwnRows(g, keepEmpty, full, local, ids);
  }

  // ----- the main theorem

  /** Every plan, of any unfolding with valid manifests, selects exactly the roots that the unfolding means. */
  lemma {:induction false} CutPlanKeepsMeaning(g: Graph, keepEmpty: bool, t: Tree)
    requires Unfolds(g, t) && AllManifestsValid(g, t) && Rows(g, keepEmpty, t).Some?
    ensures Expand(g, Rows(g, keepEmpty, t).value) == CutMeaning(g, t)
    decreases t
  {
    hide Expand, OwnRoots, KidsCutMeaning, KidsRows, AllManifestsValid;
    KidsPlanKeepsMeaning(g, keepEmpty, t, t.children);
    RootIsValid(g, t);
    OwnLeafMeaning(g, keepEmpty, t.view);
    ExpandConcat(g, KidsRows(g, keepEmpty, t.view, t.children).value,
      if HasLocalLeaf(g, keepEmpty, t.view) then [LocalRow(g, t.view)] else []);
  }

  lemma {:induction false} RootIsValid(g: Graph, t: Tree)
    requires AllManifestsValid(g, t)
    ensures ValidManifest(g, t.view)
  {
    RootIsKey(t);
  }

  lemma {:induction false} ChildrenAreValid(g: Graph, t: Tree, i: nat)
    requires AllManifestsValid(g, t) && i < |t.children|
    ensures AllManifestsValid(g, t.children[i])
  {
    KeysOfChild(t, i);
  }

  lemma {:induction false} KidsPlanKeepsMeaning(g: Graph, keepEmpty: bool, t: Tree, kids: seq<Tree>)
    requires KidsUnfold(g, t.view, kids) && kids <= t.children && AllManifestsValid(g, t)
    requires KidsRows(g, keepEmpty, t.view, kids).Some?
    ensures Expand(g, KidsRows(g, keepEmpty, t.view, kids).value) == KidsCutMeaning(g, t.view, kids)
    decreases kids
  {
    hide Expand, Rows, AllManifestsValid, Unfolds, CutMeaning, ApplyReference, Refer;
    if kids == [] {
      NothingExpands(g);
    } else {
      var last := |kids| - 1;
      var c, r := kids[last], Refs(g, t.view)[last];
      assert t.children[last] == c;
      ChildrenAreValid(g, t, last);
      KidsPlanKeepsMeaning(g, keepEmpty, t, kids[..last]);
      CutPlanKeepsMeaning(g, keepEmpty, c);
      ChildRowsFit(g, keepEmpty, r, last, c);
      ReferenceKeepsMeaning(g, r, last, Rows(g, keepEmpty, c).value);
      ExpandConcat(g, KidsRows(g, keepEmpty, t.view, kids[..last]).value,
        ApplyReference(g, r, last, Rows(g, keepEmpty, c).value).value);
    }
  }

  lemma {:induction false} NothingExpands(g: Graph)
    ensures Expand(g, []) == []
  {
  }

  lemma {:induction false} ChildRowsFit(g: Graph, keepEmpty: bool, r: Reference, segment: nat, c: Tree)
    requires UnfoldingOf(g, ChildKey(r), c) && Rows(g, keepEmpty, c).Some?
    requires ApplyReference(g, r, segment, Rows(g, keepEmpty, c).value).Some?
    ensures Fits(r, Rows(g, keepEmpty, c).value)
  {
    hide ApplyReference, Rows, Layered, Fits, Unfolds;
    PlanIsLayered(g, keepEmpty, c);
    if c.local {
      LocalRows(g, keepEmpty, c);
    }
    AcceptedRowsFit(g, r, segment, c, Rows(g, keepEmpty, c).value);
  }

  lemma {:induction false} PrunedViews(g: Graph, t: Tree, local: bool)
    requires Complete(g, t) && AllViewsValid(g, t)
    ensures AllValid(g, Prune(g, t, local)) && AllManifestsValid(g, Prune(g, t, local))
    decreases t
  {
    var pruned := Prune(g, t, local);
    PruneParts(g, t, local);
    forall k | k in Keys(pruned) ensures ValidView(g, k.view) {
      if k != KeyOf(pruned) {
        var i :| 0 <= i < |pruned.children| && k in Keys(pruned.children[i]);
        PrunedViews(g, t.children[i], Refs(g, t.view)[i].posting.Include?);
        assert k.view in Views(pruned.children[i]);
      }
    }
  }

  /**
   Where no view repeats the plan exists, and it selects exactly the roots the view means,
   at the same paths, in the same order and with the same renamed scopes.
   */
  lemma {:induction false} PlanKeepsMeaning(g: Graph, keepEmpty: bool, t: Tree, above: set<ViewId>)
    requires Complete(g, t) && NoRepeat(t, above) && AllViewsValid(g, t)
    ensures var pruned := Prune(g, t, false);
      && Unfolds(g, pruned)
      && Rows(g, keepEmpty, pruned).Some?
      && Expand(g, Rows(g, keepEmpty, pruned).value) == Meaning(g, t)
  {
    hide Prune, Complete, NoRepeat, AllViewsValid, Rows, Expand, Meaning, CutMeaning, Unfolds, AllValid,
      AllManifestsValid;
    CutKeepsMeaning(g, t);
    PruneKeepsNoRepeat(g, t, false, above);
    PlanIsWellShaped(g, keepEmpty, Prune(g, t, false), above);
    PrunedViews(g, t, false);
    CutPlanKeepsMeaning(g, keepEmpty, Prune(g, t, false));
  }
}
