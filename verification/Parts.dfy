/**
 Finite parts of an unfolding, whether or not the unfolding itself is finite.

 A walk that stops has seen a finite part of what there is below the root.  Its reason to
 stop is a fact about that part, and so about every unfolding of the root, if there is one.
 */
module Parts {
  import opened Wrappers
  import opened Manifests
  import opened Unfoldings
  import opened Cycles
  import opened LeafPlans
  import opened Traversal

  /** A tree of reference paths in which every view may lack its last children. */
  ghost predicate Part(g: Graph, t: Tree)
    decreases t
  {
    && |t.children| <= (if t.local then 0 else |Refs(g, t.view)|)
    && forall i | 0 <= i < |t.children| ::
         KeyOf(t.children[i]) == ChildKey(Refs(g, t.view)[i]) && Part(g, t.children[i])
  }

  ghost predicate PartOf(g: Graph, root: ViewId, t: Tree) {
    Part(g, t) && KeyOf(t) == Key(root, false)
  }

  lemma {:induction false} UnfoldingIsPart(g: Graph, t: Tree)
    requires Unfolds(g, t)
    ensures Part(g, t)
    decreases t
  {
    forall i | 0 <= i < |t.children|
      ensures KeyOf(t.children[i]) == ChildKey(Refs(g, t.view)[i]) && Part(g, t.children[i])
    {
      ChildUnfolds(g, t, i);
      UnfoldingIsPart(g, t.children[i]);
    }
  }

  /** What a part shows is true of the whole. */
  lemma {:induction false} PartInUnfolding(g: Graph, keepEmpty: bool, part: Tree, t: Tree)
    requires Part(g, part) && Unfolds(g, t) && KeyOf(part) == KeyOf(t)
    ensures Keys(part) <= Keys(t) && Views(part) <= Views(t)
    ensures Span(g, part) <= Span(g, t) && Leaves(g, keepEmpty, part) <= Leaves(g, keepEmpty, t)
    decreases part
  {
    forall i | 0 <= i < |part.children|
      ensures i < |t.children| && Keys(part.children[i]) <= Keys(t.children[i])
      ensures Span(g, part.children[i]) <= Span(g, t.children[i])
      ensures Leaves(g, keepEmpty, part.children[i]) <= Leaves(g, keepEmpty, t.children[i])
    {
      ChildUnfolds(g, t, i);
      PartInUnfolding(g, keepEmpty, part.children[i], t.children[i]);
    }
    KidsInUnfolding(g, keepEmpty, part.children, t.children);
    assert Keys(part) <= Keys(t);
  }

  lemma {:induction false} KidsInUnfolding(g: Graph, keepEmpty: bool, part: seq<Tree>, kids: seq<Tree>)
    requires |part| <= |kids|
    requires forall i | 0 <= i < |part| ::
      && Span(g, part[i]) <= Span(g, kids[i])
      && Leaves(g, keepEmpty, part[i]) <= Leaves(g, keepEmpty, kids[i])
    ensures KidsSpan(g, part) <= KidsSpan(g, kids)
    ensures KidsLeaves(g, keepEmpty, part) <= KidsLeaves(g, keepEmpty, kids)
    decreases |part|
  {
    hide Span, Leaves;
    if part != [] {
      var last := |part| - 1;
      var prefix := kids[..last + 1];
      assert prefix[..last] == kids[..last] && prefix[last] == kids[last];
      KidsInUnfolding(g, keepEmpty, part[..last], kids[..last]);
      KidsSpanPrefix(g, kids, last + 1);
      KidsLeavesPrefix(g, keepEmpty, kids, last + 1);
    }
  }

  /** The part of a view that nothing is known of yet but the view itself. */
  lemma {:induction false} UnopenedPart(g: Graph, keepEmpty: bool, key: Key)
    ensures var part := Tree(key.view, key.local, []);
      && Part(g, part) && KeyOf(part) == key
      && Span(g, part) == OverlayIncrement(g, key.view)
      && Leaves(g, keepEmpty, part) == if HasLocalLeaf(g, keepEmpty, key.view) then 1 else 0
  {
  }

  // ----- the part that a suspended stack has seen

  /** The done subtrees of the steps from `i` on, hung below each other, and `extra` at the end. */
  ghost function Nest(trail: seq<Step>, i: nat, extra: seq<Tree>): Tree
    requires i < |trail|
    decreases |trail| - i
  {
    Tree(trail[i].view, trail[i].local,
      trail[i].done + if i + 1 < |trail| then [Nest(trail, i + 1, extra)] else extra)
  }

  ghost predicate Steps(g: Graph, root: ViewId, trail: seq<Step>) {
    && |trail| > 0 && StepKey(trail[0]) == Key(root, false)
    && (forall i | 0 <= i < |trail| :: StepOk(g, trail[i]))
    && (forall i | 0 <= i < |trail| - 1 :: Waits(g, trail, i))
  }

  lemma {:induction false} SearchHasSteps(g: Graph, root: ViewId, trail: seq<Step>, memo: map<Key, Tree>, activeFirst: bool)
    requires SearchOk(g, root, trail, memo, activeFirst)
    ensures Steps(g, root, trail)
    ensures |trail| > 1 ==> Steps(g, root, trail[..|trail| - 1])
  {
    hide StepOk, Waits, Walked, MemoOk, DoneWithin;
    var rest := trail[..|trail| - 1];
    forall i | 0 <= i < |rest| - 1 ensures Waits(g, rest, i) {
      WaitsAlike(g, trail, rest, i);
    }
  }

  /** Nothing, or a part of the next child. */
  ghost predicate NextKid(g: Graph, s: Step, extra: seq<Tree>) {
    extra != [] ==>
      && |extra| == 1 && HasNext(g, s)
      && KeyOf(extra[0]) == ChildKey(NextRef(g, s)) && Part(g, extra[0])
  }

  lemma {:induction false} NestIsPart(g: Graph, root: ViewId, trail: seq<Step>, i: nat, extra: seq<Tree>)
    requires Steps(g, root, trail) && i < |trail| && NextKid(g, Top(trail), extra)
    ensures Part(g, Nest(trail, i, extra)) && KeyOf(Nest(trail, i, extra)) == StepKey(trail[i])
    decreases |trail| - i
  {
    hide Unfolds, Active;
    var step := trail[i];
    if i + 1 < |trail| {
      NestIsPart(g, root, trail, i + 1, extra);
      assert Waits(g, trail, i);
      MoreKidsArePart(g, step, [Nest(trail, i + 1, extra)]);
    } else {
      MoreKidsArePart(g, step, extra);
    }
  }

  lemma {:induction false} MoreKidsArePart(g: Graph, step: Step, more: seq<Tree>)
    requires StepOk(g, step) && NextKid(g, step, more)
    ensures Part(g, Tree(step.view, step.local, step.done + more))
  {
    hide Unfolds;
    forall k | 0 <= k < |step.done| ensures Part(g, step.done[k]) {
      UnfoldingIsPart(g, step.done[k]);
    }
  }

  lemma {:induction false} NestInside(g: Graph, keepEmpty: bool, trail: seq<Step>, i: nat, extra: seq<Tree>)
    requires i < |trail|
    ensures var whole, part := Nest(trail, 0, extra), Nest(trail, i, extra);
      && DepthBefore(g, trail, i) + Span(g, part) <= Span(g, whole)
      && LeavesBefore(g, keepEmpty, trail, i) + Leaves(g, keepEmpty, part) <= Leaves(g, keepEmpty, whole)
      && Keys(part) <= Keys(whole)
  {
    if i > 0 {
      var parent, part := Nest(trail, i - 1, extra), Nest(trail, i, extra);
      NestInside(g, keepEmpty, trail, i - 1, extra);
      assert parent.children == trail[i - 1].done + [part];
      LastKid(g, keepEmpty, parent, trail[i - 1].done, part);
    }
  }

  lemma {:induction false} LastKid(g: Graph, keepEmpty: bool, parent: Tree, done: seq<Tree>, last: Tree)
    requires parent.children == done + [last]
    ensures OverlayIncrement(g, parent.view) + Span(g, last) <= Span(g, parent)
    ensures Leaves(g, keepEmpty, parent) == KidsLeaves(g, keepEmpty, done) + Leaves(g, keepEmpty, last)
      + if HasLocalLeaf(g, keepEmpty, parent.view) then 1 else 0
    ensures Keys(last) <= Keys(parent)
  {
    assert parent.children[..|done|] == done && parent.children[|done|] == last;
    KeysOfChild(parent, |done|);
  }

  /** The keys of the memo table have all been met. */
  lemma {:induction false} NestHasKeys(
    g: Graph, root: ViewId, trail: seq<Step>, seen: set<Key>, activeFirst: bool, i: nat, extra: seq<Tree>)
    requires TrailOk(g, root, trail, seen, activeFirst) && i < |trail|
    ensures var keys := Keys(Nest(trail, 0, extra));
      && trail[i].entry <= keys && StepKey(trail[i]) in keys
      && (if i + 1 < |trail| then trail[i + 1].entry else seen) <= keys
  {
    hide Keys, StepOk, Waits, WalkKids;
    var part := Nest(trail, i, extra);
    if i > 0 {
      NestHasKeys(g, root, trail, seen, activeFirst, i - 1, extra);
    }
    NestInside(g, false, trail, i, extra);
    RootIsKey(part);
    assert Walked(trail, i, seen, activeFirst);
    WalkKidsWithin(part, trail[i].done, Active(trail, i + 1), trail[i].entry, activeFirst);
  }

  lemma {:induction false} NestHasAll(
    g: Graph, root: ViewId, trail: seq<Step>, memo: map<Key, Tree>, activeFirst: bool, extra: seq<Tree>)
    requires SearchOk(g, root, trail, memo, activeFirst)
    ensures var part := Nest(trail, 0, extra);
      && memo.Keys <= Keys(part) && StepKey(Top(trail)) in Keys(part)
      && ViewsOf(memo.Keys) + Active(trail, |trail|) <= Views(part)
  {
    hide Keys, StepOk, Waits, Walked, DoneWithin, MemoOk;
    NestHasKeys(g, root, trail, memo.Keys, activeFirst, |trail| - 1, extra);
    forall v | v in Active(trail, |trail|) ensures v in Views(Nest(trail, 0, extra)) {
      var i :| 0 <= i < |trail| && trail[i].view == v;
      NestHasKeys(g, root, trail, memo.Keys, activeFirst, i, extra);
      assert StepKey(trail[i]) in Keys(Nest(trail, 0, extra));
    }
  }

  /** Everything met so far, with a part of the child that the top step looks at next. */
  lemma {:induction false} NextPart(g: Graph, keepEmpty: bool, root: ViewId, trail: seq<Step>, c: Tree) returns (part: Tree)
    requires Steps(g, root, trail) && HasNext(g, Top(trail))
    requires Part(g, c) && KeyOf(c) == ChildKey(NextRef(g, Top(trail)))
    ensures part == Nest(trail, 0, [c]) && PartOf(g, root, part)
    ensures DepthBefore(g, trail, |trail|) + Span(g, c) <= Span(g, part)
    ensures LeavesBefore(g, keepEmpty, trail, |trail|) + Leaves(g, keepEmpty, c)
      + (if HasLocalLeaf(g, keepEmpty, Top(trail).view) then 1 else 0) <= Leaves(g, keepEmpty, part)
    ensures Keys(c) <= Keys(part) && c.view in Views(part)
  {
    hide Part, StepOk, Waits, Keys;
    var last := |trail| - 1;
    part := Nest(trail, 0, [c]);
    NestIsPart(g, root, trail, 0, [c]);
    NestInside(g, keepEmpty, trail, last, [c]);
    LastKid(g, keepEmpty, Nest(trail, last, [c]), trail[last].done, c);
    RootIsKey(c);
    assert KeyOf(c) in Keys(part);
  }

  /** Everything met so far. */
  lemma {:induction false} MetPart(g: Graph, keepEmpty: bool, root: ViewId, trail: seq<Step>) returns (part: Tree)
    requires Steps(g, root, trail)
    ensures part == Nest(trail, 0, []) && PartOf(g, root, part)
    ensures LeavesBefore(g, keepEmpty, trail, |trail|)
      + (if HasLocalLeaf(g, keepEmpty, Top(trail).view) then 1 else 0) <= Leaves(g, keepEmpty, part)
  {
    hide Part, StepOk, Waits, Keys;
    var last := |trail| - 1;
    part := Nest(trail, 0, []);
    NestIsPart(g, root, trail, 0, []);
    NestInside(g, keepEmpty, trail, last, []);
    assert Nest(trail, last, []).children == trail[last].done;
  }

  lemma {:induction false} SeenWork(g: Graph, retained: set<ViewId>, v: ViewId, views: set<ViewId>, work: nat)
    requires retained <= views && v in views && work == WorkOf(g, retained)
    ensures v in g && v !in retained ==> work + g[v].work <= WorkOf(g, views)
  {
    if v in g && v !in retained {
      WorkOfAdd(g, retained, v);
      WorkOfMonotone(g, retained + {v}, views);
    }
  }

  /** Meeting an active view is meeting a cycle of references. */
  lemma {:induction false} ActiveNextIsCycle(g: Graph, root: ViewId, trail: seq<Step>)
    requires Steps(g, root, trail) && HasNext(g, Top(trail))
    requires NextRef(g, Top(trail)).source in Active(trail, |trail|)
    ensures !NoReferenceCycle(g, root)
  {
    var next := NextRef(g, Top(trail)).source;
    var p := seq(|trail| + 1, i requires 0 <= i <= |trail| => if i < |trail| then trail[i].view else next);
    forall i | 0 <= i < |p| - 1 ensures RefersTo(g, p[i], p[i + 1]) {
      if i < |trail| - 1 {
        assert Waits(g, trail, i);
        assert Refs(g, p[i])[|trail[i].done|].source == p[i + 1];
      } else {
        assert Refs(g, p[i])[|trail[i].done|].source == p[i + 1];
      }
    }
    assert ReferencePath(g, p) && p[0] == root;
    var i :| 0 <= i < |trail| && trail[i].view == next;
    assert p[i] == p[|trail|] && !Distinct(p);
  }
}
