/**
 When a memoised walk meets an active view, said of the unfolding alone: some view, at a
 place where its key does not occur to the left of the path, has a child that is on the
 path.  Where the memo table is consulted first, the child's key must not occur to the left
 of the child either.
 */
module BackReferences {
  import opened Wrappers
  import opened Manifests
  import opened Unfoldings
  import opened Traversal

  /** The subtree at the end of a path. */
  function At(t: Tree, p: seq<nat>): Tree
    requires PathIn(t, p)
    decreases t
  {
    if p == [] then t else At(t.children[p[0]], p[1..])
  }

  /** The views on a path, both ends included. */
  function ViewsOn(t: Tree, p: seq<nat>): set<ViewId>
    requires PathIn(t, p)
    decreases t
  {
    {t.view} + if p == [] then {} else ViewsOn(t.children[p[0]], p[1..])
  }

  ghost function KidsKeys(kids: seq<Tree>): set<Key> {
    set i, k | 0 <= i < |kids| && k in Keys(kids[i]) :: k
  }

  /** The keys of all subtrees that branch off to the left of a path. */
  ghost function LeftKeys(t: Tree, p: seq<nat>): set<Key>
    requires PathIn(t, p)
    decreases t
  {
    if p == [] then {} else KidsKeys(t.children[..p[0]]) + LeftKeys(t.children[p[0]], p[1..])
  }

  /** Does a walk test child `i` at the end of a path against the active views? */
  ghost predicate Tested(t: Tree, p: seq<nat>, i: nat, seen: set<Key>, activeFirst: bool)
    requires PathIn(t, p) && i < |At(t, p).children|
  {
    && KeyOf(At(t, p)) !in seen + LeftKeys(t, p)
    && (activeFirst ||
        KeyOf(At(t, p).children[i]) !in seen + LeftKeys(t, p) + KidsKeys(At(t, p).children[..i]))
  }

  /** No child that is tested leads back to its path or above it. */
  ghost predicate Clean(t: Tree, above: set<ViewId>, seen: set<Key>, activeFirst: bool) {
    forall p, i | PathIn(t, p) && 0 <= i < |At(t, p).children| && Tested(t, p, i, seen, activeFirst) ::
      At(t, p).children[i].view !in above + ViewsOn(t, p)
  }

  ghost predicate NoBackReference(t: Tree, activeFirst: bool) {
    forall p, i | PathIn(t, p) && 0 <= i < |At(t, p).children| && Tested(t, p, i, {}, activeFirst) ::
      At(t, p).children[i].view !in ViewsOn(t, p)
  }

  // ----- sets of keys that walks have completed

  /** With a key the set holds every key of its unfolding. */
  ghost predicate Downward(g: Graph, keys: set<Key>) {
    forall s | Unfolds(g, s) && KeyOf(s) in keys :: Keys(s) <= keys
  }

  lemma {:induction false} KeysAreDownward(g: Graph, t: Tree)
    requires Unfolds(g, t)
    ensures Downward(g, Keys(t))
  {
    forall s | Unfolds(g, s) && KeyOf(s) in Keys(t) ensures Keys(s) <= Keys(t) {
      var u := KeyHasUnfolding(g, t, KeyOf(s));
      UnfoldingIsUnique(g, s, u);
    }
  }

  lemma {:induction false} DownwardUnion(g: Graph, a: set<Key>, b: set<Key>)
    requires Downward(g, a) && Downward(g, b)
    ensures Downward(g, a + b)
  {
  }

  lemma {:induction false} KidsKeysGrow(kids: seq<Tree>)
    requires kids != []
    ensures KidsKeys(kids) == KidsKeys(kids[..|kids| - 1]) + Keys(kids[|kids| - 1])
  {
    hide Keys;
    assert kids == kids[..|kids| - 1] + [kids[|kids| - 1]];
  }

  lemma {:induction false} KidsAreDownward(g: Graph, v: ViewId, kids: seq<Tree>)
    requires KidsUnfold(g, v, kids)
    ensures Downward(g, KidsKeys(kids))
    decreases |kids|
  {
    hide Keys, Unfolds, Downward;
    if kids == [] {
      NothingIsDownward(g);
      assert KidsKeys(kids) == {};
    } else {
      KidsAreDownward(g, v, kids[..|kids| - 1]);
      KeysAreDownward(g, kids[|kids| - 1]);
      KidsKeysGrow(kids);
      DownwardUnion(g, KidsKeys(kids[..|kids| - 1]), Keys(kids[|kids| - 1]));
    }
  }

  lemma {:induction false} NothingIsDownward(g: Graph)
    ensures Downward(g, {})
  {
  }

  // ----- clean trees and clean children

  lemma {:induction false} AtKey(t: Tree, p: seq<nat>)
    requires PathIn(t, p)
    ensures KeyOf(At(t, p)) in Keys(t)
    decreases t
  {
    if p == [] {
      RootIsKey(t);
    } else {
      AtKey(t.children[p[0]], p[1..]);
      KeysOfChild(t, p[0]);
    }
  }

  /** What was seen already needs no cleaning. */
  lemma {:induction false} SeenIsClean(t: Tree, above: set<ViewId>, seen: set<Key>, activeFirst: bool)
    requires Keys(t) <= seen
    ensures Clean(t, above, seen, activeFirst)
  {
    forall p | PathIn(t, p) ensures KeyOf(At(t, p)) in seen {
      AtKey(t, p);
    }
  }

  ghost predicate CleanKid(kids: seq<Tree>, above: set<ViewId>, seen: set<Key>, j: nat, activeFirst: bool)
    requires j < |kids|
  {
    && (activeFirst || KeyOf(kids[j]) !in seen + KidsKeys(kids[..j]) ==> kids[j].view !in above)
    && Clean(kids[j], above, seen + KidsKeys(kids[..j]), activeFirst)
  }

  ghost predicate CleanKids(kids: seq<Tree>, above: set<ViewId>, seen: set<Key>, activeFirst: bool) {
    forall j | 0 <= j < |kids| :: CleanKid(kids, above, seen, j, activeFirst)
  }

  lemma {:induction false} StepDown(t: Tree, above: set<ViewId>, seen: set<Key>, j: nat, p: seq<nat>)
    requires j < |t.children| && PathIn(t.children[j], p)
    ensures PathIn(t, [j] + p) && At(t, [j] + p) == At(t.children[j], p)
    ensures above + ViewsOn(t, [j] + p) == above + {t.view} + ViewsOn(t.children[j], p)
    ensures seen + LeftKeys(t, [j] + p) == seen + KidsKeys(t.children[..j]) + LeftKeys(t.children[j], p)
  {
    hide KidsKeys;
    assert ([j] + p)[1..] == p;
  }

  lemma {:induction false} AtTheTop(t: Tree, above: set<ViewId>, seen: set<Key>, i: nat, activeFirst: bool)
    requires KeyOf(t) !in seen && i < |t.children|
    ensures PathIn(t, []) && At(t, []) == t && above + ViewsOn(t, []) == above + {t.view}
    ensures Tested(t, [], i, seen, activeFirst) <==>
      activeFirst || KeyOf(t.children[i]) !in seen + KidsKeys(t.children[..i])
  {
    hide KidsKeys;
    assert LeftKeys(t, []) == {};
  }

  lemma {:induction false} CleanIsCleanKids(t: Tree, above: set<ViewId>, seen: set<Key>, activeFirst: bool)
    requires KeyOf(t) !in seen
    ensures Clean(t, above, seen, activeFirst) <==> CleanKids(t.children, above + {t.view}, seen, activeFirst)
  {
    hide LeftKeys, KidsKeys;
    if Clean(t, above, seen, activeFirst) {
      forall j | 0 <= j < |t.children| ensures CleanKid(t.children, above + {t.view}, seen, j, activeFirst) {
        CleanHasCleanKid(t, above, seen, j, activeFirst);
      }
    }
    if CleanKids(t.children, above + {t.view}, seen, activeFirst) {
      CleanKidsAreClean(t, above, seen, activeFirst);
    }
  }

  lemma {:induction false} CleanKidsAreClean(t: Tree, above: set<ViewId>, seen: set<Key>, activeFirst: bool)
    requires KeyOf(t) !in seen && CleanKids(t.children, above + {t.view}, seen, activeFirst)
    ensures Clean(t, above, seen, activeFirst)
  {
    hide LeftKeys, KidsKeys, ViewsOn;
    forall p, i | PathIn(t, p) && 0 <= i < |At(t, p).children| && Tested(t, p, i, seen, activeFirst)
      ensures At(t, p).children[i].view !in above + ViewsOn(t, p)
    {
      if p == [] {
        AtTheTop(t, above, seen, i, activeFirst);
        assert CleanKid(t.children, above + {t.view}, seen, i, activeFirst);
      } else {
        assert CleanKid(t.children, above + {t.view}, seen, p[0], activeFirst);
        assert [p[0]] + p[1..] == p;
        StepDown(t, above, seen, p[0], p[1..]);
      }
    }
  }

  lemma {:induction false} CleanHasCleanKid(
    t: Tree, above: set<ViewId>, seen: set<Key>, j: nat, activeFirst: bool)
    requires KeyOf(t) !in seen && Clean(t, above, seen, activeFirst) && j < |t.children|
    ensures CleanKid(t.children, above + {t.view}, seen, j, activeFirst)
  {
    hide KidsKeys, LeftKeys, ViewsOn;
    AtTheTop(t, above, seen, j, activeFirst);
    var c, left := t.children[j], seen + KidsKeys(t.children[..j]);
    forall p, i | PathIn(c, p) && 0 <= i < |At(c, p).children| && Tested(c, p, i, left, activeFirst)
      ensures At(c, p).children[i].view !in above + {t.view} + ViewsOn(c, p)
    {
      StepDown(t, above, seen, j, p);
    }
  }

  // ----- the walk

  lemma {:induction false} WalkIffClean(g: Graph, t: Tree, above: set<ViewId>, seen: set<Key>, activeFirst: bool)
    requires Unfolds(g, t) && Downward(g, seen) && KeyOf(t) !in seen
    ensures Walk(t, above, seen, activeFirst).Some? <==> Clean(t, above, seen, activeFirst)
    ensures Walk(t, above, seen, activeFirst).Some? ==>
      Walk(t, above, seen, activeFirst).value == seen + Keys(t)
    decreases t, 1
  {
    hide Clean, CleanKids, Downward;
    CleanIsCleanKids(t, above, seen, activeFirst);
    WalkKidsIffClean(g, t.view, t.children, above + {t.view}, seen, activeFirst);
    KeysOfTree(t);
  }

  lemma {:induction false} KeysOfTree(t: Tree)
    ensures Keys(t) == KidsKeys(t.children) + {KeyOf(t)}
  {
  }

  lemma {:induction false} WalkKidsIffClean(
    g: Graph, v: ViewId, kids: seq<Tree>, above: set<ViewId>, seen: set<Key>, activeFirst: bool)
    requires KidsUnfold(g, v, kids) && Downward(g, seen)
    ensures WalkKids(kids, above, seen, activeFirst).Some? <==> CleanKids(kids, above, seen, activeFirst)
    ensures WalkKids(kids, above, seen, activeFirst).Some? ==>
      WalkKids(kids, above, seen, activeFirst).value == seen + KidsKeys(kids)
    decreases kids, 0
  {
    hide Clean, Downward, Keys, KidsKeys, Unfolds;
    if kids == [] {
      NoKidsNoKeys();
    } else {
      var init, last := kids[..|kids| - 1], kids[|kids| - 1];
      WalkKidsIffClean(g, v, init, above, seen, activeFirst);
      KidsAreDownward(g, v, init);
      DownwardUnion(g, seen, KidsKeys(init));
      KidsKeysGrow(kids);
      LastIsCleanKid(kids, above, seen, activeFirst);
      var before := seen + KidsKeys(init);
      if KeyOf(last) in before {
        DownwardKeys(g, before, last);
        SeenIsClean(last, above, before, activeFirst);
        assert seen + KidsKeys(kids) == before;
      } else {
        WalkIffClean(g, last, above, before, activeFirst);
        assert seen + KidsKeys(kids) == before + Keys(last);
      }
    }
  }

  lemma {:induction false} NoKidsNoKeys()
    ensures KidsKeys([]) == {}
  {
  }

  lemma {:induction false} DownwardKeys(g: Graph, keys: set<Key>, t: Tree)
    requires Downward(g, keys) && Unfolds(g, t) && KeyOf(t) in keys
    ensures Keys(t) <= keys
  {
  }

  lemma {:induction false} LastIsCleanKid(
    kids: seq<Tree>, above: set<ViewId>, seen: set<Key>, activeFirst: bool)
    requires kids != []
    ensures CleanKids(kids, above, seen, activeFirst) <==>
      && CleanKids(kids[..|kids| - 1], above, seen, activeFirst)
      && CleanKid(kids, above, seen, |kids| - 1, activeFirst)
  {
    hide Clean, KidsKeys;
    var init := kids[..|kids| - 1];
    forall j | 0 <= j < |init|
      ensures CleanKid(init, above, seen, j, activeFirst) == CleanKid(kids, above, seen, j, activeFirst)
    {
      assert init[..j] == kids[..j];
    }
  }

  /** A walk gets through exactly when there is no back reference for its order of tests. */
  lemma {:induction false} WalkIffNoBackReference(g: Graph, t: Tree, activeFirst: bool)
    requires Unfolds(g, t)
    ensures Walk(t, {}, {}, activeFirst).Some? <==> NoBackReference(t, activeFirst)
  {
    hide Walk, LeftKeys, ViewsOn, Tested;
    NothingIsDownward(g);
    WalkIffClean(g, t, {}, {}, activeFirst);
    assert forall p | PathIn(t, p) :: {} + ViewsOn(t, p) == ViewsOn(t, p);
  }

  /** Where no view repeats on a path there is none, in either order. */
  lemma {:induction false} NoRepeatNoBackReference(t: Tree, activeFirst: bool)
    requires NoRepeat(t, {})
    ensures NoBackReference(t, activeFirst)
  {
    forall p, i | PathIn(t, p) && 0 <= i < |At(t, p).children|
      ensures At(t, p).children[i].view !in ViewsOn(t, p)
    {
      ChildIsNotOnPath(t, {}, p, i);
    }
  }

  lemma {:induction false} ChildIsNotOnPath(t: Tree, above: set<ViewId>, p: seq<nat>, i: nat)
    requires NoRepeat(t, above) && PathIn(t, p) && i < |At(t, p).children|
    ensures At(t, p).children[i].view !in above + ViewsOn(t, p)
    decreases t
  {
    if p != [] {
      ChildIsNotOnPath(t.children[p[0]], above + {t.view}, p[1..], i);
    } else {
      assert NoRepeat(t.children[i], above + {t.view});
    }
  }
}
