/**
 When a view has an unfolding, said of the graph: reference paths and cycles.
 */
module Cycles {
  import opened Wrappers
  import opened Manifests
  import opened Unfoldings

  /** A reference that flattening follows all the way down. */
  predicate Descends(g: Graph, u: ViewId, v: ViewId) {
    exists i | 0 <= i < |Refs(g, u)| :: Refs(g, u)[i].source == v && !Refs(g, u)[i].posting.Include?
  }

  /** Any reference, INCLUDE or not. */
  predicate RefersTo(g: Graph, u: ViewId, v: ViewId) {
    exists i | 0 <= i < |Refs(g, u)| :: Refs(g, u)[i].source == v
  }

  predicate DescentPath(g: Graph, p: seq<ViewId>) {
    p != [] && forall i | 0 <= i < |p| - 1 :: Descends(g, p[i], p[i + 1])
  }

  predicate ReferencePath(g: Graph, p: seq<ViewId>) {
    p != [] && forall i | 0 <= i < |p| - 1 :: RefersTo(g, p[i], p[i + 1])
  }

  predicate Distinct(p: seq<ViewId>) {
    forall i, j | 0 <= i < j < |p| :: p[i] != p[j]
  }

  /** Every view that is reached exists, together with everything it refers to. */
  ghost predicate Closed(g: Graph, root: ViewId) {
    forall p | DescentPath(g, p) && p[0] == root :: RefsExist(g, p[|p| - 1])
  }

  predicate RefsExist(g: Graph, v: ViewId) {
    v in g && forall i | 0 <= i < |g[v].refs| :: g[v].refs[i].source in g
  }

  ghost predicate NoDescentCycle(g: Graph, root: ViewId) {
    forall p | DescentPath(g, p) && p[0] == root :: Distinct(p)
  }

  /** No view repeats on any reference path from the root, INCLUDE references counted. */
  ghost predicate NoReferenceCycle(g: Graph, root: ViewId) {
    forall p | ReferencePath(g, p) && p[0] == root :: Distinct(p)
  }

  ghost function Height(t: Tree): nat
    decreases t
  {
    1 + KidsHeight(t.children)
  }

  ghost function KidsHeight(kids: seq<Tree>): (h: nat)
    ensures forall i | 0 <= i < |kids| :: Height(kids[i]) <= h
    decreases kids
  {
    if kids == [] then 0 else
      var prior := KidsHeight(kids[..|kids| - 1]);
      var last := Height(kids[|kids| - 1]);
      if last > prior then last else prior
  }

  // ----- an unfolding rules out cycles

  /** Step `n` of a descent path has an unfolding, lower by at least `n`. */
  lemma {:induction false} UnfoldingAlong(g: Graph, t: Tree, p: seq<ViewId>, n: nat) returns (s: Tree)
    requires DescentPath(g, p) && UnfoldingOf(g, Key(p[0], false), t) && n < |p|
    ensures UnfoldingOf(g, Key(p[n], false), s) && Height(s) + n <= Height(t)
  {
    if n == 0 {
      s := t;
    } else {
      var before := UnfoldingAlong(g, t, p, n - 1);
      assert Descends(g, p[n - 1], p[n - 1 + 1]);
      var i :| 0 <= i < |Refs(g, p[n - 1])| &&
        Refs(g, p[n - 1])[i].source == p[n] && !Refs(g, p[n - 1])[i].posting.Include?;
      ChildUnfolds(g, before, i);
      s := before.children[i];
    }
  }

  lemma {:induction false} UnfoldingHasNoCycle(g: Graph, root: ViewId, t: Tree)
    requires UnfoldingOf(g, Key(root, false), t)
    ensures NoDescentCycle(g, root) && Closed(g, root)
  {
    forall p | DescentPath(g, p) && p[0] == root ensures Distinct(p) {
      forall i, j | 0 <= i < j < |p| ensures p[i] != p[j] {
        var s := UnfoldingAlong(g, t, p, i);
        var tail := p[i..];
        assert DescentPath(g, tail) by {
          forall k | 0 <= k < |tail| - 1 ensures Descends(g, tail[k], tail[k + 1]) {
            assert Descends(g, p[i + k], p[i + k + 1]);
          }
        }
        var u := UnfoldingAlong(g, s, tail, j - i);
        if p[i] == p[j] {
          UnfoldingIsUnique(g, s, u);
        }
      }
    }
    forall p | DescentPath(g, p) && p[0] == root
      ensures RefsExist(g, p[|p| - 1])
    {
      var s := UnfoldingAlong(g, t, p, |p| - 1);
      forall i | 0 <= i < |g[s.view].refs| ensures g[s.view].refs[i].source in g {
        ChildUnfolds(g, s, i);
      }
    }
  }

  // ----- without cycles there is an unfolding

  function Elements(p: seq<ViewId>): set<ViewId> {
    set i | 0 <= i < |p| :: p[i]
  }

  lemma {:induction false} DistinctIsSmall(p: seq<ViewId>, all: set<ViewId>)
    requires Distinct(p) && Elements(p) <= all
    ensures |p| <= |all|
    decreases |p|
  {
    if p != [] {
      var last := |p| - 1;
      var rest := p[..last];
      assert forall i | 0 <= i < last :: p[i] in Elements(p);
      assert p[last] in Elements(p) && p[last] !in Elements(rest);
      DistinctIsSmall(rest, all - {p[last]});
    }
  }

  /** Unfolds the last view of a path, which no descent from it can meet again. */
  lemma {:induction false} Unfold(g: Graph, root: ViewId, p: seq<ViewId>) returns (t: Tree)
    requires Closed(g, root) && NoDescentCycle(g, root)
    requires DescentPath(g, p) && p[0] == root
    ensures UnfoldingOf(g, Key(p[|p| - 1], false), t)
    decreases |g| - |p|, 1
  {
    var v := p[|p| - 1];
    var kids := UnfoldKids(g, root, p, |Refs(g, v)|);
    t := Tree(v, false, kids);
  }

  lemma {:induction false} UnfoldKids(g: Graph, root: ViewId, p: seq<ViewId>, n: nat) returns (kids: seq<Tree>)
    requires Closed(g, root) && NoDescentCycle(g, root)
    requires DescentPath(g, p) && p[0] == root && n <= |Refs(g, p[|p| - 1])|
    ensures KidsUnfold(g, p[|p| - 1], kids) && |kids| == n
    decreases |g| - |p|, 0, n
  {
    if n == 0 {
      kids := [];
    } else {
      var v := p[|p| - 1];
      var r := Refs(g, v)[n - 1];
      var before := UnfoldKids(g, root, p, n - 1);
      var t := Tree(r.source, true, []);
      assert RefsExist(g, v);
      if !r.posting.Include? {
        LongerPath(g, root, p, n - 1);
        t := Unfold(g, root, p + [r.source]);
      }
      kids := before + [t];
      OneMoreKid(g, v, before, t);
    }
  }

  lemma {:induction false} OneMoreKid(g: Graph, v: ViewId, kids: seq<Tree>, c: Tree)
    requires KidsUnfold(g, v, kids) && |kids| < |Refs(g, v)|
    requires UnfoldingOf(g, ChildKey(Refs(g, v)[|kids|]), c)
    ensures KidsUnfold(g, v, kids + [c])
  {
  }

  lemma {:induction false} LongerPath(g: Graph, root: ViewId, p: seq<ViewId>, i: nat)
    requires Closed(g, root) && NoDescentCycle(g, root)
    requires DescentPath(g, p) && p[0] == root && i < |Refs(g, p[|p| - 1])|
    requires !Refs(g, p[|p| - 1])[i].posting.Include?
    ensures var longer := p + [Refs(g, p[|p| - 1])[i].source];
      DescentPath(g, longer) && |longer| <= |g|
  {
    var longer := p + [Refs(g, p[|p| - 1])[i].source];
    assert DescentPath(g, longer) by {
      forall k | 0 <= k < |longer| - 1 ensures Descends(g, longer[k], longer[k + 1]) {
        if k < |p| - 1 {
          assert Descends(g, p[k], p[k + 1]);
        }
      }
    }
    forall v | v in Elements(longer) ensures v in g.Keys {
      var k :| 0 <= k < |longer| && longer[k] == v;
      PrefixIsPath(g, longer, k + 1);
    }
    DistinctIsSmall(longer, g.Keys);
  }

  lemma {:induction false} PrefixIsPath(g: Graph, p: seq<ViewId>, n: nat)
    requires DescentPath(g, p) && 0 < n <= |p|
    ensures DescentPath(g, p[..n])
  {
    var q := p[..n];
    forall i | 0 <= i < |q| - 1 ensures Descends(g, q[i], q[i + 1]) {
      assert Descends(g, p[i], p[i + 1]);
    }
  }

  /**
   A view can be flattened exactly when everything it reaches exists and no cycle of
   ALL and EXCLUDE references can be reached from it.
   */
  lemma {:induction false} UnfoldingIffAcyclic(g: Graph, root: ViewId)
    ensures (exists t :: UnfoldingOf(g, Key(root, false), t)) <==>
      Closed(g, root) && NoDescentCycle(g, root)
  {
    if t :| UnfoldingOf(g, Key(root, false), t) {
      UnfoldingHasNoCycle(g, root, t);
    }
    if Closed(g, root) && NoDescentCycle(g, root) {
      assert DescentPath(g, [root]);
      var t := Unfold(g, root, [root]);
    }
  }

  // ----- no reference cycle, no repeated view

  lemma {:induction false} NoRepeatOnPaths(g: Graph, root: ViewId, p: seq<ViewId>, t: Tree)
    requires NoReferenceCycle(g, root) && ReferencePath(g, p) && p[0] == root
    requires Unfolds(g, t) && t.view == p[|p| - 1]
    ensures NoRepeat(t, Elements(p[..|p| - 1]))
    decreases t
  {
    var last := |p| - 1;
    var above := Elements(p[..last]);
    assert t.view !in above by {
      assert Distinct(p);
    }
    assert above + {t.view} == Elements(p) by {
      assert forall i | 0 <= i < last :: p[..last][i] == p[i];
      assert p[last] in Elements(p);
      assert forall v | v in Elements(p) :: v in above || v == p[last];
    }
    forall i | 0 <= i < |t.children| ensures NoRepeat(t.children[i], above + {t.view}) {
      ChildUnfolds(g, t, i);
      var longer := p + [t.children[i].view];
      assert Refs(g, p[last])[i].source == longer[last + 1];
      assert ReferencePath(g, longer) by {
        forall k | 0 <= k < |longer| - 1 ensures RefersTo(g, longer[k], longer[k + 1]) {
          if k < last {
            assert RefersTo(g, p[k], p[k + 1]);
          }
        }
      }
      NoRepeatOnPaths(g, root, longer, t.children[i]);
      assert longer[..|longer| - 1] == p;
    }
  }

  lemma {:induction false} AcyclicHasNoRepeat(g: Graph, root: ViewId, t: Tree)
    requires NoReferenceCycle(g, root) && Unfolds(g, t) && t.view == root
    ensures NoRepeat(t, {})
  {
    assert ReferencePath(g, [root]);
    NoRepeatOnPaths(g, root, [root], t);
    assert Elements([root][..0]) == {};
  }
}
