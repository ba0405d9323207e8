/**
 The unfolding of a view graph: the tree of reference paths from one view.

 Flattening never looks below an INCLUDE reference, so the tree stops there: the
 child reached through INCLUDE is `local`, which stands for the source's own table
 only.  A view has an unfolding exactly when no cycle of other references can be
 reached from it; everything the flattening computes is defined by recursion over
 this finite tree, with no reference to memo tables or traversal order.
 */
module Unfoldings {
  import opened Wrappers
  import opened Manifests

  datatype Tree = Tree(view: ViewId, local: bool, children: seq<Tree>)

  /** What the memo tables are indexed by. */
  datatype Key = Key(view: ViewId, local: bool)

  function KeyOf(t: Tree): Key {
    Key(t.view, t.local)
  }

  function ChildKey(r: Reference): Key {
    Key(r.source, r.posting.Include?)
  }

  ghost predicate Unfolds(g: Graph, t: Tree)
    decreases t
  {
    && t.view in g
    && KidsUnfold(g, t.view, t.children)
    && |t.children| == if t.local then 0 else |Refs(g, t.view)|
  }

  ghost predicate KidsUnfold(g: Graph, v: ViewId, kids: seq<Tree>)
    decreases kids
  {
    && |kids| <= |Refs(g, v)|
    && forall i | 0 <= i < |kids| :: KeyOf(kids[i]) == ChildKey(Refs(g, v)[i]) && Unfolds(g, kids[i])
  }

  ghost predicate UnfoldingOf(g: Graph, key: Key, t: Tree) {
    Unfolds(g, t) && KeyOf(t) == key
  }

  ghost predicate HasUnfolding(g: Graph, root: ViewId) {
    exists t :: UnfoldingOf(g, Key(root, false), t)
  }

  lemma {:induction false} ChildUnfolds(g: Graph, t: Tree, i: nat)
    requires Unfolds(g, t) && i < |t.children|
    ensures !t.local && |t.children| == |Refs(g, t.view)|
    ensures UnfoldingOf(g, ChildKey(Refs(g, t.view)[i]), t.children[i])
  {
    assert KidsUnfold(g, t.view, t.children);
  }

  lemma {:induction false} UnfoldingIsUnique(g: Graph, s: Tree, t: Tree)
    requires Unfolds(g, s) && Unfolds(g, t) && KeyOf(s) == KeyOf(t)
    ensures s == t
    decreases s
  {
    forall i | 0 <= i < |s.children| ensures s.children[i] == t.children[i] {
      UnfoldingIsUnique(g, s.children[i], t.children[i]);
    }
    assert s.children == t.children;
  }

  // ----- measures of the unfolding

  /** The most overlay containers on one path of the unfolding. */
  ghost function Span(g: Graph, t: Tree): nat
    decreases t
  {
    OverlayIncrement(g, t.view) + KidsSpan(g, t.children)
  }

  ghost function KidsSpan(g: Graph, kids: seq<Tree>): (n: nat)
    ensures forall i | 0 <= i < |kids| :: Span(g, kids[i]) <= n
    decreases kids
  {
    if kids == [] then 0 else
      var prior := KidsSpan(g, kids[..|kids| - 1]);
      var last := Span(g, kids[|kids| - 1]);
      if last > prior then last else prior
  }

  /** A path of the unfolding, as the indexes of the children it takes. */
  predicate PathIn(t: Tree, p: seq<nat>)
    decreases t
  {
    p == [] || (p[0] < |t.children| && PathIn(t.children[p[0]], p[1..]))
  }

  function OverlaysAlong(g: Graph, t: Tree, p: seq<nat>): nat
    requires PathIn(t, p)
    decreases t
  {
    OverlayIncrement(g, t.view) + if p == [] then 0 else OverlaysAlong(g, t.children[p[0]], p[1..])
  }

  lemma {:induction false} NoPathExceedsSpan(g: Graph, t: Tree, p: seq<nat>)
    requires PathIn(t, p)
    ensures OverlaysAlong(g, t, p) <= Span(g, t)
    decreases t
  {
    if p != [] {
      NoPathExceedsSpan(g, t.children[p[0]], p[1..]);
    }
  }

  lemma {:induction false} WidestChild(g: Graph, kids: seq<Tree>) returns (i: nat)
    requires kids != []
    ensures i < |kids| && Span(g, kids[i]) == KidsSpan(g, kids)
    decreases kids
  {
    i := |kids| - 1;
    if i == 0 {
      assert kids[..0] == [];
    } else if Span(g, kids[i]) < KidsSpan(g, kids) {
      i := WidestChild(g, kids[..i]);
    }
  }

  lemma {:induction false} SpanIsReached(g: Graph, t: Tree) returns (p: seq<nat>)
    ensures PathIn(t, p) && OverlaysAlong(g, t, p) == Span(g, t)
    decreases t
  {
    p := [];
    if t.children != [] {
      var i := WidestChild(g, t.children);
      var below := SpanIsReached(g, t.children[i]);
      p := [i] + below;
      assert p[1..] == below;
    }
  }

  /** The span exceeds a limit exactly when the overlay containers of some path do. */
  lemma {:induction false} SpanIsWorstPath(g: Graph, t: Tree, limit: nat)
    ensures Span(g, t) > limit <==> exists p :: PathIn(t, p) && OverlaysAlong(g, t, p) > limit
  {
    var worst := SpanIsReached(g, t);
    forall p | PathIn(t, p) ensures OverlaysAlong(g, t, p) <= Span(g, t) {
      NoPathExceedsSpan(g, t, p);
    }
  }

  /** The number of local leaves of the unfolding. */
  ghost function Leaves(g: Graph, keepEmpty: bool, t: Tree): nat
    decreases t
  {
    KidsLeaves(g, keepEmpty, t.children) + if HasLocalLeaf(g, keepEmpty, t.view) then 1 else 0
  }

  ghost function KidsLeaves(g: Graph, keepEmpty: bool, kids: seq<Tree>): nat
    decreases kids
  {
    if kids == [] then 0
    else KidsLeaves(g, keepEmpty, kids[..|kids| - 1]) + Leaves(g, keepEmpty, kids[|kids| - 1])
  }

  ghost function Keys(t: Tree): set<Key>
    decreases t
  {
    {KeyOf(t)} + set i, k | 0 <= i < |t.children| && k in Keys(t.children[i]) :: k
  }

  function ViewsOf(keys: set<Key>): set<ViewId> {
    set k | k in keys :: k.view
  }

  ghost function Views(t: Tree): set<ViewId> {
    ViewsOf(Keys(t))
  }

  ghost predicate AllValid(g: Graph, t: Tree) {
    forall v | v in Views(t) :: ValidView(g, v)
  }

  /** The manifest part of validity, which both languages establish. */
  ghost predicate AllManifestsValid(g: Graph, t: Tree) {
    forall v | v in Views(t) :: ValidManifest(g, v)
  }

  /** No view occurs twice on one path from the root, given the views `above` the root. */
  ghost predicate NoRepeat(t: Tree, above: set<ViewId>)
    decreases t
  {
    && t.view !in above
    && forall i | 0 <= i < |t.children| :: NoRepeat(t.children[i], above + {t.view})
  }

  lemma {:induction false} KidsSpanPrefix(g: Graph, kids: seq<Tree>, n: nat)
    requires n <= |kids|
    ensures KidsSpan(g, kids[..n]) <= KidsSpan(g, kids)
  {
    if n < |kids| {
      assert kids[..|kids| - 1][..n] == kids[..n];
      KidsSpanPrefix(g, kids[..|kids| - 1], n);
    } else {
      assert kids[..n] == kids;
    }
  }

  lemma {:induction false} KidsLeavesPrefix(g: Graph, keepEmpty: bool, kids: seq<Tree>, n: nat)
    requires n <= |kids|
    ensures KidsLeaves(g, keepEmpty, kids[..n]) <= KidsLeaves(g, keepEmpty, kids)
    ensures n < |kids| ==>
      KidsLeaves(g, keepEmpty, kids[..n]) + Leaves(g, keepEmpty, kids[n]) <= KidsLeaves(g, keepEmpty, kids)
    decreases |kids|
  {
    if n + 1 < |kids| {
      assert kids[..|kids| - 1][..n] == kids[..n];
      KidsLeavesPrefix(g, keepEmpty, kids[..|kids| - 1], n);
    } else if n == |kids| {
      assert kids[..n] == kids;
    }
  }

  lemma {:induction false} KeysOfChild(t: Tree, i: nat)
    requires i < |t.children|
    ensures Keys(t.children[i]) <= Keys(t)
    ensures Views(t.children[i]) <= Views(t)
  {
  }

  lemma {:induction false} RootIsKey(t: Tree)
    ensures KeyOf(t) in Keys(t) && t.view in Views(t)
  {
    assert KeyOf(t) in Keys(t);
  }

  lemma {:induction false} KeyHasUnfolding(g: Graph, t: Tree, k: Key) returns (s: Tree)
    requires Unfolds(g, t) && k in Keys(t)
    ensures UnfoldingOf(g, k, s) && Keys(s) <= Keys(t)
    decreases t
  {
    if k == KeyOf(t) {
      s := t;
    } else {
      var i :| 0 <= i < |t.children| && k in Keys(t.children[i]);
      s := KeyHasUnfolding(g, t.children[i], k);
    }
  }
}
