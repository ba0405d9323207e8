/**
 Memoised depth-first traversal of a view graph, seen from its unfolding.

 Both languages walk the graph with an explicit stack, a set of active views and a
 memo table, so they never see the unfolding itself.  `Walk` says, on the
 unfolding, which keys such a walk completes and whether it meets an active view.
 The two languages differ in one place, `activeFirst`: whether a reference is
 tested against the active views before the memo table is consulted.

 A `Trail` is what one suspended stack says about the unfolding: for every frame
 the subtrees it has completed, and the keys that were complete when it started.
 */
module Traversal {
  import opened Wrappers
  import opened Manifests
  import opened Unfoldings
  import opened LeafPlans

  ghost function Walk(t: Tree, above: set<ViewId>, seen: set<Key>, activeFirst: bool): Option<set<Key>>
    decreases t
  {
    var inside :- WalkKids(t.children, above + {t.view}, seen, activeFirst);
    Some(inside + {KeyOf(t)})
  }

  ghost function WalkKids(
    kids: seq<Tree>, above: set<ViewId>, seen: set<Key>, activeFirst: bool): Option<set<Key>>
    decreases kids
  {
    if kids == [] then Some(seen) else
      var before :- WalkKids(kids[..|kids| - 1], above, seen, activeFirst);
      var last := kids[|kids| - 1];
      if activeFirst && last.view in above then None
      else if KeyOf(last) in before then Some(before)
      else if last.view in above then None
      else Walk(last, above, before, activeFirst)
  }

  /** A walk completes the keys it had and keys of the unfolding, and nothing else. */
  lemma {:induction false} WalkWithin(t: Tree, above: set<ViewId>, seen: set<Key>, activeFirst: bool)
    ensures var after := Walk(t, above, seen, activeFirst);
      after.Some? ==> seen + {KeyOf(t)} <= after.value <= seen + Keys(t)
    decreases t
  {
    WalkKidsWithin(t, t.children, above + {t.view}, seen, activeFirst);
    RootIsKey(t);
  }

  lemma {:induction false} WalkKidsWithin(
    t: Tree, kids: seq<Tree>, above: set<ViewId>, seen: set<Key>, activeFirst: bool)
    requires kids <= t.children
    ensures var after := WalkKids(kids, above, seen, activeFirst);
      after.Some? ==> seen <= after.value <= seen + Keys(t)
    decreases kids
  {
    if kids != [] {
      var last := |kids| - 1;
      WalkKidsWithin(t, kids[..last], above, seen, activeFirst);
      var before := WalkKids(kids[..last], above, seen, activeFirst);
      if before.Some? {
        WalkWithin(kids[last], above, before.value, activeFirst);
        assert t.children[last] == kids[last];
        KeysOfChild(t, last);
      }
    }
  }

  lemma {:induction false} WalkKidsPrefix(
    kids: seq<Tree>, n: nat, above: set<ViewId>, seen: set<Key>, activeFirst: bool)
    requires n <= |kids|
    requires WalkKids(kids[..n], above, seen, activeFirst).None?
    ensures WalkKids(kids, above, seen, activeFirst).None?
    decreases |kids|
  {
    if n == |kids| {
      assert kids[..n] == kids;
    } else {
      assert kids[..|kids| - 1][..n] == kids[..n];
      WalkKidsPrefix(kids[..|kids| - 1], n, above, seen, activeFirst);
    }
  }

  /** Where no view repeats on a path, neither order of the two tests meets an active view. */
  lemma {:induction false} WalkWithoutRepeats(
    t: Tree, above: set<ViewId>, seen: set<Key>, activeFirst: bool)
    requires NoRepeat(t, above)
    ensures Walk(t, above, seen, activeFirst).Some?
    decreases t
  {
    WalkKidsWithoutRepeats(t.children, above + {t.view}, seen, activeFirst);
  }

  lemma {:induction false} WalkKidsWithoutRepeats(
    kids: seq<Tree>, above: set<ViewId>, seen: set<Key>, activeFirst: bool)
    requires forall i | 0 <= i < |kids| :: NoRepeat(kids[i], above)
    ensures WalkKids(kids, above, seen, activeFirst).Some?
    decreases kids
  {
    if kids != [] {
      var last := |kids| - 1;
      WalkKidsWithoutRepeats(kids[..last], above, seen, activeFirst);
      var before := WalkKids(kids[..last], above, seen, activeFirst).value;
      WalkWithoutRepeats(kids[last], above, before, activeFirst);
    }
  }

  /** Testing the active views first only ever refuses more. */
  lemma {:induction false} ActiveFirstIsStricter(t: Tree, above: set<ViewId>, seen: set<Key>)
    ensures Walk(t, above, seen, true).Some? ==>
      Walk(t, above, seen, false) == Walk(t, above, seen, true)
    decreases t
  {
    ActiveFirstIsStricterKids(t.children, above + {t.view}, seen);
  }

  lemma {:induction false} ActiveFirstIsStricterKids(kids: seq<Tree>, above: set<ViewId>, seen: set<Key>)
    ensures WalkKids(kids, above, seen, true).Some? ==>
      WalkKids(kids, above, seen, false) == WalkKids(kids, above, seen, true)
    decreases kids
  {
    if kids != [] && WalkKids(kids, above, seen, true).Some? {
      var last := |kids| - 1;
      ActiveFirstIsStricterKids(kids[..last], above, seen);
      ActiveFirstIsStricter(kids[last], above, WalkKids(kids[..last], above, seen, true).value);
    }
  }

  // ----- the trail of a suspended stack

  /** One suspended view: the subtrees done so far and the keys complete when it was entered. */
  datatype Step = Step(view: ViewId, local: bool, done: seq<Tree>, entry: set<Key>)

  function StepKey(s: Step): Key {
    Key(s.view, s.local)
  }

  /** The active views: those of the first `n` steps. */
  function Active(trail: seq<Step>, n: nat): set<ViewId>
    requires n <= |trail|
  {
    set i | 0 <= i < n :: trail[i].view
  }

  lemma {:induction false} ActiveByViews(trail: seq<Step>, other: seq<Step>, n: nat)
    requires n <= |trail| && n <= |other|
    requires forall i | 0 <= i < n :: trail[i].view == other[i].view
    ensures Active(trail, n) == Active(other, n)
  {
  }

  ghost predicate StepOk(g: Graph, s: Step) {
    && s.view in g
    && KidsUnfold(g, s.view, s.done)
    && (s.local ==> s.done == [])
  }

  /** Step `i` waits for step `i + 1`. */
  ghost predicate Waits(g: Graph, trail: seq<Step>, i: nat)
    requires i + 1 < |trail|
  {
    && !trail[i].local
    && |trail[i].done| < |Refs(g, trail[i].view)|
    && StepKey(trail[i + 1]) == ChildKey(Refs(g, trail[i].view)[|trail[i].done|])
    && StepKey(trail[i + 1]) !in trail[i + 1].entry
    && trail[i + 1].view !in Active(trail, i + 1)
  }

  /** The walk of the done subtrees of step `i` ends where the next step starts, or at `seen`. */
  ghost predicate Walked(trail: seq<Step>, i: nat, seen: set<Key>, activeFirst: bool)
    requires i < |trail|
  {
    WalkKids(trail[i].done, Active(trail, i + 1), trail[i].entry, activeFirst) ==
    Some(if i + 1 < |trail| then trail[i + 1].entry else seen)
  }

  ghost predicate TrailOk(g: Graph, root: ViewId, trail: seq<Step>, seen: set<Key>, activeFirst: bool) {
    && |trail| > 0
    && StepKey(trail[0]) == Key(root, false) && trail[0].entry == {}
    && (forall i | 0 <= i < |trail| :: StepOk(g, trail[i]) && Walked(trail, i, seen, activeFirst))
    && (forall i | 0 <= i < |trail| - 1 :: Waits(g, trail, i))
  }

  /** Subtree `i` of the unfolding under a trail. */
  ghost predicate Follows(g: Graph, trail: seq<Step>, i: nat, t: Tree)
    requires i < |trail|
  {
    UnfoldingOf(g, StepKey(trail[i]), t)
  }

  lemma {:induction false} DoneIsPrefix(g: Graph, done: seq<Tree>, t: Tree)
    requires Unfolds(g, t) && KidsUnfold(g, t.view, done) && |done| <= |t.children|
    ensures done <= t.children
  {
    forall k | 0 <= k < |done| ensures done[k] == t.children[k] {
      UnfoldingIsUnique(g, done[k], t.children[k]);
    }
  }

  /** Done subtrees are the unfolding's first children; the next step is its next child. */
  lemma {:induction false} TrailDescends(
    g: Graph, root: ViewId, trail: seq<Step>, seen: set<Key>, activeFirst: bool, i: nat, t: Tree)
    requires TrailOk(g, root, trail, seen, activeFirst) && i < |trail| && Follows(g, trail, i, t)
    ensures trail[i].done <= t.children
    ensures i + 1 < |trail| ==>
      |trail[i].done| < |t.children| && Follows(g, trail, i + 1, t.children[|trail[i].done|])
  {
    assert StepOk(g, trail[i]);
    DoneIsPrefix(g, trail[i].done, t);
    if i + 1 < |trail| {
      NextStepIsChild(g, trail, i, t);
    }
  }

  lemma {:induction false} NextStepIsChild(g: Graph, trail: seq<Step>, i: nat, t: Tree)
    requires i + 1 < |trail| && Waits(g, trail, i) && Follows(g, trail, i, t)
    ensures |trail[i].done| < |t.children| && Follows(g, trail, i + 1, t.children[|trail[i].done|])
  {
    ChildUnfolds(g, t, |trail[i].done|);
  }

  // ----- what the trail knows about the whole unfolding

  /** The overlays among the first `n` active views. */
  function DepthBefore(g: Graph, trail: seq<Step>, n: nat): nat
    requires n <= |trail|
  {
    if n == 0 then 0 else DepthBefore(g, trail, n - 1) + OverlayIncrement(g, trail[n - 1].view)
  }

  lemma {:induction false} DepthByViews(g: Graph, trail: seq<Step>, other: seq<Step>, n: nat)
    requires n <= |trail| && n <= |other|
    requires forall i | 0 <= i < n :: trail[i].view == other[i].view
    ensures DepthBefore(g, trail, n) == DepthBefore(g, other, n)
  {
    if n > 0 {
      DepthByViews(g, trail, other, n - 1);
    }
  }

  /** The leaves of the done subtrees of the first `n` steps. */
  ghost function LeavesBefore(g: Graph, keepEmpty: bool, trail: seq<Step>, n: nat): nat
    requires n <= |trail|
  {
    if n == 0 then 0
    else LeavesBefore(g, keepEmpty, trail, n - 1) + KidsLeaves(g, keepEmpty, trail[n - 1].done)
  }

  /**
   Step `i` of a trail sits inside any unfolding of the root: its depth, leaves and
   keys are part of the whole, and a walk that stops there stops as a whole.
   */
  lemma {:induction false} StepInside(
    g: Graph, keepEmpty: bool, root: ViewId, trail: seq<Step>, seen: set<Key>, activeFirst: bool,
    t: Tree, i: nat)
    returns (s: Tree)
    requires TrailOk(g, root, trail, seen, activeFirst) && i < |trail|
    requires UnfoldingOf(g, Key(root, false), t)
    ensures Follows(g, trail, i, s) && trail[i].done <= s.children
    ensures DepthBefore(g, trail, i) + Span(g, s) <= Span(g, t)
    ensures LeavesBefore(g, keepEmpty, trail, i) + Leaves(g, keepEmpty, s) <= Leaves(g, keepEmpty, t)
    ensures Keys(s) <= Keys(t) && trail[i].entry <= Keys(t)
    ensures Walk(s, Active(trail, i), trail[i].entry, activeFirst).None? ==>
      Walk(t, {}, {}, activeFirst).None?
    ensures Rows(g, keepEmpty, s).None? ==> Rows(g, keepEmpty, t).None?
  {
    hide Rows, Span, Leaves, KidsLeaves, Walk, WalkKids, Unfolds, StepOk, Waits, Keys;
    if i == 0 {
      s := t;
      assert Active(trail, 0) == {};
    } else {
      var parent := StepInside(g, keepEmpty, root, trail, seen, activeFirst, t, i - 1);
      TrailDescends(g, root, trail, seen, activeFirst, i - 1, parent);
      var n := |trail[i - 1].done|;
      s := parent.children[n];
      ChildInsideParent(g, keepEmpty, parent, trail[i - 1].done);
      if Walk(s, Active(trail, i), trail[i].entry, activeFirst).None? {
        StoppedChildStopsParent(g, root, trail, seen, activeFirst, parent, i - 1);
      }
      assert Walked(trail, i - 1, seen, activeFirst);
      WalkKidsWithin(parent, trail[i - 1].done, Active(trail, i), trail[i - 1].entry, activeFirst);
    }
    TrailDescends(g, root, trail, seen, activeFirst, i, s);
  }

  lemma {:induction false} ChildInsideParent(g: Graph, keepEmpty: bool, parent: Tree, done: seq<Tree>)
    requires Unfolds(g, parent) && done < parent.children
    ensures var child := parent.children[|done|];
      && Unfolds(g, child)
      && Keys(child) <= Keys(parent)
      && OverlayIncrement(g, parent.view) + Span(g, child) <= Span(g, parent)
      && KidsLeaves(g, keepEmpty, done) + Leaves(g, keepEmpty, child) <= Leaves(g, keepEmpty, parent)
      && (Rows(g, keepEmpty, child).None? ==> Rows(g, keepEmpty, parent).None?)
  {
    var n := |done|;
    ChildUnfolds(g, parent, n);
    assert parent.children[..n] == done;
    KidsLeavesPrefix(g, keepEmpty, parent.children, n);
    KeysOfChild(parent, n);
    if Rows(g, keepEmpty, parent.children[n]).None? {
      FailedChildFailsParent(g, keepEmpty, parent, n);
    }
  }

  lemma {:induction false} FailedChildFailsParent(g: Graph, keepEmpty: bool, parent: Tree, n: nat)
    requires Unfolds(g, parent) && n < |parent.children|
    requires Unfolds(g, parent.children[n]) && Rows(g, keepEmpty, parent.children[n]).None?
    ensures Rows(g, keepEmpty, parent).None?
  {
    hide ApplyReference;
    var kids := parent.children[..n + 1];
    KidsRowsPrefix(g, keepEmpty, parent.view, parent.children, n + 1);
    assert kids[..n] == parent.children[..n] && kids[n] == parent.children[n];
    assert KidsRows(g, keepEmpty, parent.view, kids).None?;
  }

  lemma {:induction false} StoppedChildStopsParent(
    g: Graph, root: ViewId, trail: seq<Step>, seen: set<Key>, activeFirst: bool, parent: Tree, i: nat)
    requires TrailOk(g, root, trail, seen, activeFirst) && i + 1 < |trail|
    requires Follows(g, trail, i, parent) && trail[i].done < parent.children
    requires var child := parent.children[|trail[i].done|];
      && Follows(g, trail, i + 1, child)
      && Walk(child, Active(trail, i + 1), trail[i + 1].entry, activeFirst).None?
    ensures Walk(parent, Active(trail, i), trail[i].entry, activeFirst).None?
  {
    hide Unfolds, StepOk, WalkKids;
    assert Active(trail, i + 1) == Active(trail, i) + {parent.view};
    assert Walked(trail, i, seen, activeFirst) && Waits(g, trail, i);
    StoppedNextStopsKids(parent.children, trail[i].done, Active(trail, i + 1), trail[i].entry,
      trail[i + 1].entry, activeFirst);
  }

  // ----- the three moves of a walk

  /** The memo table holds the unfolding of every complete key, and is closed under children. */
  ghost predicate MemoOk(g: Graph, memo: map<Key, Tree>) {
    forall k | k in memo :: UnfoldingOf(g, k, memo[k]) && Keys(memo[k]) <= memo.Keys
  }

  ghost predicate SearchOk(
    g: Graph, root: ViewId, trail: seq<Step>, memo: map<Key, Tree>, activeFirst: bool)
  {
    && TrailOk(g, root, trail, memo.Keys, activeFirst)
    && MemoOk(g, memo)
    && (forall i | 0 <= i < |trail| :: DoneWithin(trail[i], memo.Keys))
  }

  ghost predicate DoneWithin(s: Step, keys: set<Key>) {
    forall j | 0 <= j < |s.done| :: Keys(s.done[j]) <= keys
  }

  function Top(trail: seq<Step>): Step
    requires trail != []
  {
    trail[|trail| - 1]
  }

  function WithTop(trail: seq<Step>, s: Step): seq<Step>
    requires trail != []
  {
    trail[..|trail| - 1] + [s]
  }

  /** The next reference of the top step, when it has one. */
  predicate HasNext(g: Graph, s: Step) {
    !s.local && |s.done| < |Refs(g, s.view)|
  }

  function NextRef(g: Graph, s: Step): Reference
    requires HasNext(g, s)
  {
    Refs(g, s.view)[|s.done|]
  }

  lemma {:induction false} SearchStarts(g: Graph, root: ViewId, activeFirst: bool)
    requires root in g
    ensures SearchOk(g, root, [Step(root, false, [], {})], map[], activeFirst)
  {
    var empty: map<Key, Tree> := map[];
    assert empty.Keys == {};
    assert Walked([Step(root, false, [], {})], 0, {}, activeFirst);
  }

  /** A step with the same view and the same neighbours is walked the same way. */
  lemma {:induction false} WalkedAlike(
    trail: seq<Step>, other: seq<Step>, i: nat, seen: set<Key>, otherSeen: set<Key>, activeFirst: bool)
    requires i < |trail| && i < |other| && Walked(trail, i, seen, activeFirst)
    requires forall k | 0 <= k <= i :: trail[k].view == other[k].view
    requires trail[i] == other[i]
    requires (if i + 1 < |trail| then trail[i + 1].entry else seen)
      == (if i + 1 < |other| then other[i + 1].entry else otherSeen)
    ensures Walked(other, i, otherSeen, activeFirst)
  {
    ActiveByViews(trail, other, i + 1);
  }

  lemma {:induction false} WaitsAlike(g: Graph, trail: seq<Step>, other: seq<Step>, i: nat)
    requires i + 1 < |trail| && i + 1 < |other| && Waits(g, trail, i)
    requires forall k | 0 <= k <= i :: trail[k] == other[k]
    requires StepKey(trail[i + 1]) == StepKey(other[i + 1]) && trail[i + 1].entry == other[i + 1].entry
    ensures Waits(g, other, i)
  {
    ActiveByViews(trail, other, i + 1);
  }

  /** Entering a child that is neither active nor complete. */
  lemma {:induction false} SearchEnters(g: Graph, root: ViewId, trail: seq<Step>, memo: map<Key, Tree>, activeFirst: bool)
    requires SearchOk(g, root, trail, memo, activeFirst) && HasNext(g, Top(trail))
    requires var r := NextRef(g, Top(trail));
      r.source in g && ChildKey(r) !in memo && r.source !in Active(trail, |trail|)
    ensures var k := ChildKey(NextRef(g, Top(trail)));
      SearchOk(g, root, trail + [Step(k.view, k.local, [], memo.Keys)], memo, activeFirst)
  {
    var k := ChildKey(NextRef(g, Top(trail)));
    var longer := trail + [Step(k.view, k.local, [], memo.Keys)];
    hide StepOk, Walked, Waits, MemoOk, DoneWithin;
    EnteredStep(g, trail, longer, memo.Keys, activeFirst);
    forall i | 0 <= i < |trail|
      ensures StepOk(g, longer[i]) && Walked(longer, i, memo.Keys, activeFirst) && Waits(g, longer, i)
    {
      OldStepStays(g, trail, longer, memo.Keys, activeFirst, i);
    }
  }

  lemma {:induction false} OldStepStays(
    g: Graph, trail: seq<Step>, longer: seq<Step>, seen: set<Key>, activeFirst: bool, i: nat)
    requires i < |trail| && trail < longer && |longer| == |trail| + 1 && Top(longer).entry == seen
    requires StepOk(g, trail[i]) && Walked(trail, i, seen, activeFirst)
    requires i + 1 < |trail| ==> Waits(g, trail, i)
    requires Waits(g, longer, |trail| - 1)
    ensures StepOk(g, longer[i]) && Walked(longer, i, seen, activeFirst) && Waits(g, longer, i)
  {
    hide StepOk, Walked, Waits;
    WalkedAlike(trail, longer, i, seen, seen, activeFirst);
    if i + 1 < |trail| {
      WaitsAlike(g, trail, longer, i);
    }
  }

  lemma {:induction false} EnteredStep(g: Graph, trail: seq<Step>, longer: seq<Step>, seen: set<Key>, activeFirst: bool)
    requires |trail| > 0 && HasNext(g, Top(trail)) && NextRef(g, Top(trail)).source in g
    requires var k := ChildKey(NextRef(g, Top(trail)));
      && longer == trail + [Step(k.view, k.local, [], seen)]
      && k !in seen && k.view !in Active(trail, |trail|)
    ensures StepOk(g, Top(longer)) && Walked(longer, |trail|, seen, activeFirst)
    ensures Waits(g, longer, |trail| - 1) && DoneWithin(Top(longer), seen)
  {
    ActiveByViews(trail, longer, |trail|);
  }

  /** Taking a complete child from the memo table. */
  lemma {:induction false} SearchRecalls(g: Graph, root: ViewId, trail: seq<Step>, memo: map<Key, Tree>, activeFirst: bool)
    requires SearchOk(g, root, trail, memo, activeFirst) && HasNext(g, Top(trail))
    requires ChildKey(NextRef(g, Top(trail))) in memo
    requires activeFirst ==> NextRef(g, Top(trail)).source !in Active(trail, |trail|)
    ensures var c := memo[ChildKey(NextRef(g, Top(trail)))];
      SearchOk(g, root, WithTop(trail, Top(trail).(done := Top(trail).done + [c])), memo, activeFirst)
  {
    var top := Top(trail);
    var c := memo[ChildKey(NextRef(g, top))];
    assert (top.done + [c])[..|top.done|] == top.done;
    assert Walked(trail, |trail| - 1, memo.Keys, activeFirst);
    TopAdvances(g, root, trail, memo.Keys, memo, activeFirst, c);
  }

  /** What stays true of the steps below the top while the top completes a child. */
  ghost predicate Underway(g: Graph, root: ViewId, trail: seq<Step>, seen: set<Key>, activeFirst: bool) {
    && |trail| > 0
    && StepKey(trail[0]) == Key(root, false) && trail[0].entry == {}
    && StepOk(g, Top(trail))
    && (forall i | 0 <= i < |trail| - 1 ::
          StepOk(g, trail[i]) && Walked(trail, i, seen, activeFirst) && Waits(g, trail, i))
    && (forall i | 0 <= i < |trail| :: DoneWithin(trail[i], seen))
  }

  lemma {:induction false} TopAdvances(
    g: Graph, root: ViewId, trail: seq<Step>, seen: set<Key>, memo: map<Key, Tree>,
    activeFirst: bool, c: Tree)
    requires Underway(g, root, trail, seen, activeFirst) && HasNext(g, Top(trail))
    requires MemoOk(g, memo) && seen <= memo.Keys
    requires ChildKey(NextRef(g, Top(trail))) in memo
    requires c == memo[ChildKey(NextRef(g, Top(trail)))]
    requires WalkKids(Top(trail).done + [c], Active(trail, |trail|), Top(trail).entry, activeFirst)
      == Some(memo.Keys)
    ensures SearchOk(g, root, WithTop(trail, Top(trail).(done := Top(trail).done + [c])), memo, activeFirst)
  {
    hide StepOk, Walked, Waits, DoneWithin, MemoOk, WalkKids, Active;
    var top := Top(trail);
    var after := WithTop(trail, top.(done := top.done + [c]));
    TopHasOneMore(g, trail, after, seen, memo, activeFirst, c);
    forall i | 0 <= i < |trail|
      ensures StepOk(g, after[i]) && Walked(after, i, memo.Keys, activeFirst)
      ensures DoneWithin(after[i], memo.Keys)
      ensures i < |trail| - 1 ==> Waits(g, after, i)
    {
      assert DoneWithin(trail[i], seen);
      if i < |trail| - 1 {
        BelowTheTop(g, root, trail, seen, activeFirst, after, memo.Keys, i);
        DoneWithinMore(trail[i], seen, memo.Keys);
      }
    }
  }

  lemma {:induction false} DoneWithinMore(s: Step, fewer: set<Key>, more: set<Key>)
    requires DoneWithin(s, fewer) && fewer <= more
    ensures DoneWithin(s, more)
  {
  }

  lemma {:induction false} TopHasOneMore(
    g: Graph, trail: seq<Step>, after: seq<Step>, seen: set<Key>, memo: map<Key, Tree>, activeFirst: bool, c: Tree)
    requires trail != [] && after == WithTop(trail, Top(trail).(done := Top(trail).done + [c]))
    requires StepOk(g, Top(trail)) && DoneWithin(Top(trail), seen) && HasNext(g, Top(trail))
    requires MemoOk(g, memo) && seen <= memo.Keys
    requires ChildKey(NextRef(g, Top(trail))) in memo && c == memo[ChildKey(NextRef(g, Top(trail)))]
    requires WalkKids(Top(trail).done + [c], Active(trail, |trail|), Top(trail).entry, activeFirst)
      == Some(memo.Keys)
    ensures StepOk(g, Top(after)) && Walked(after, |trail| - 1, memo.Keys, activeFirst)
    ensures DoneWithin(Top(after), memo.Keys)
  {
    hide WalkKids, Unfolds, KidsUnfold;
    StepGrows(g, Top(trail), c);
    ActiveByViews(trail, after, |trail|);
  }

  lemma {:induction false} BelowTheTop(
    g: Graph, root: ViewId, trail: seq<Step>, seen: set<Key>, activeFirst: bool,
    after: seq<Step>, seenAfter: set<Key>, i: nat)
    requires Underway(g, root, trail, seen, activeFirst) && i < |trail| - 1
    requires |after| == |trail|
    requires forall k | 0 <= k < |trail| - 1 :: after[k] == trail[k]
    requires StepKey(Top(after)) == StepKey(Top(trail)) && Top(after).entry == Top(trail).entry
    ensures StepOk(g, after[i]) && Walked(after, i, seenAfter, activeFirst) && Waits(g, after, i)
  {
    hide StepOk, Walked, Waits, DoneWithin;
    WalkedAlike(trail, after, i, seen, seenAfter, activeFirst);
    WaitsAlike(g, trail, after, i);
  }

  lemma {:induction false} StepGrows(g: Graph, s: Step, c: Tree)
    requires StepOk(g, s) && HasNext(g, s) && UnfoldingOf(g, ChildKey(NextRef(g, s)), c)
    ensures StepOk(g, s.(done := s.done + [c]))
  {
    var kids := s.done + [c];
    assert forall i | 0 <= i < |s.done| :: kids[i] == s.done[i];
  }

  /** The unfolding that a step with nothing left to do has completed. */
  function Completed(s: Step): Tree {
    Tree(s.view, s.local, s.done)
  }

  lemma {:induction false} SearchLeaves(g: Graph, root: ViewId, trail: seq<Step>, memo: map<Key, Tree>, activeFirst: bool)
    requires SearchOk(g, root, trail, memo, activeFirst) && !HasNext(g, Top(trail))
    ensures var t := Completed(Top(trail));
      var memo' := memo[KeyOf(t) := t];
      && MemoOk(g, memo')
      && Keys(t) <= memo'.Keys
      && (|trail| == 1 ==>
            UnfoldingOf(g, Key(root, false), t) && Walk(t, {}, {}, activeFirst) == Some(memo'.Keys))
      && (|trail| > 1 ==>
            var rest := trail[..|trail| - 1];
            HasNext(g, Top(rest)) && ChildKey(NextRef(g, Top(rest))) == KeyOf(t) &&
            SearchOk(g, root, WithTop(rest, Top(rest).(done := Top(rest).done + [t])), memo', activeFirst))
  {
    var t := Completed(Top(trail));
    TopCompletes(g, root, trail, memo, activeFirst);
    MemoGrows(g, memo, t);
    if |trail| == 1 {
      assert Active(trail, 0) == {};
    } else {
      ParentResumes(g, root, trail, memo, activeFirst);
    }
  }

  lemma {:induction false} TopCompletes(g: Graph, root: ViewId, trail: seq<Step>, memo: map<Key, Tree>, activeFirst: bool)
    requires SearchOk(g, root, trail, memo, activeFirst) && !HasNext(g, Top(trail))
    ensures var t := Completed(Top(trail));
      && Unfolds(g, t)
      && (forall j | 0 <= j < |t.children| :: Keys(t.children[j]) <= memo.Keys)
      && Walk(t, Active(trail, |trail| - 1), Top(trail).entry, activeFirst)
           == Some(memo[KeyOf(t) := t].Keys)
  {
    var top := Top(trail);
    var t := Completed(top);
    var last := |trail| - 1;
    assert StepOk(g, top) && Walked(trail, last, memo.Keys, activeFirst) && DoneWithin(top, memo.Keys);
    assert Active(trail, last + 1) == Active(trail, last) + {top.view};
    assert memo[KeyOf(t) := t].Keys == memo.Keys + {KeyOf(t)};
  }

  lemma {:induction false} ParentResumes(g: Graph, root: ViewId, trail: seq<Step>, memo: map<Key, Tree>, activeFirst: bool)
    requires SearchOk(g, root, trail, memo, activeFirst) && !HasNext(g, Top(trail)) && |trail| > 1
    ensures var t := Completed(Top(trail));
      var rest := trail[..|trail| - 1];
      HasNext(g, Top(rest)) && ChildKey(NextRef(g, Top(rest))) == KeyOf(t) &&
      SearchOk(g, root, WithTop(rest, Top(rest).(done := Top(rest).done + [t])),
        memo[KeyOf(t) := t], activeFirst)
  {
    hide Underway, MemoOk, DoneWithin, Unfolds, WalkKids, Walked, Waits, StepOk;
    var t := Completed(Top(trail));
    var memo' := memo[KeyOf(t) := t];
    var rest := trail[..|trail| - 1];
    TopCompletes(g, root, trail, memo, activeFirst);
    MemoGrows(g, memo, t);
    RestIsUnderway(g, root, trail, memo.Keys, activeFirst);
    assert Waits(g, trail, |trail| - 2) && Walked(trail, |trail| - 2, memo.Keys, activeFirst);
    assert memo'.Keys == memo.Keys + {KeyOf(t)};
    ParentWalksOn(g, trail, memo.Keys, activeFirst);
    TopAdvances(g, root, rest, memo.Keys, memo', activeFirst, t);
  }

  /** The parent waits for the completed top, and its walk goes on through it. */
  lemma {:induction false} ParentWalksOn(g: Graph, trail: seq<Step>, seen: set<Key>, activeFirst: bool)
    requires |trail| > 1 && Waits(g, trail, |trail| - 2) && Walked(trail, |trail| - 2, seen, activeFirst)
    requires Walk(Completed(Top(trail)), Active(trail, |trail| - 1), Top(trail).entry, activeFirst)
      == Some(seen + {StepKey(Top(trail))})
    ensures var t := Completed(Top(trail));
      var rest := trail[..|trail| - 1];
      && HasNext(g, Top(rest)) && ChildKey(NextRef(g, Top(rest))) == KeyOf(t)
      && WalkKids(Top(rest).done + [t], Active(rest, |rest|), Top(rest).entry, activeFirst)
        == Some(seen + {KeyOf(t)})
  {
    hide Walk;
    var t := Completed(Top(trail));
    var rest := trail[..|trail| - 1];
    ActiveByViews(trail, rest, |rest|);
    var kids := Top(rest).done + [t];
    assert kids[..|kids| - 1] == Top(rest).done && kids[|kids| - 1] == t;
  }

  lemma {:induction false} RestIsUnderway(g: Graph, root: ViewId, trail: seq<Step>, seen: set<Key>, activeFirst: bool)
    requires TrailOk(g, root, trail, seen, activeFirst) && |trail| > 1
    requires forall i | 0 <= i < |trail| :: DoneWithin(trail[i], seen)
    ensures Underway(g, root, trail[..|trail| - 1], seen, activeFirst)
  {
    hide StepOk, Walked, Waits, DoneWithin;
    var rest := trail[..|trail| - 1];
    forall i | 0 <= i < |rest| - 1
      ensures StepOk(g, rest[i]) && Walked(rest, i, seen, activeFirst) && Waits(g, rest, i)
    {
      WalkedAlike(trail, rest, i, seen, seen, activeFirst);
      WaitsAlike(g, trail, rest, i);
    }
  }

  lemma {:induction false} MemoGrows(g: Graph, memo: map<Key, Tree>, t: Tree)
    requires MemoOk(g, memo) && Unfolds(g, t)
    requires forall j | 0 <= j < |t.children| :: Keys(t.children[j]) <= memo.Keys
    ensures MemoOk(g, memo[KeyOf(t) := t]) && Keys(t) <= memo[KeyOf(t) := t].Keys
  {
  }

  // ----- a suspended walk inside an unfolding

  /** Everything a suspended walk has met belongs to any unfolding of the root. */
  lemma {:induction false} SearchInside(
    g: Graph, keepEmpty: bool, root: ViewId, trail: seq<Step>, memo: map<Key, Tree>, activeFirst: bool,
    t: Tree)
    returns (s: Tree)
    requires SearchOk(g, root, trail, memo, activeFirst) && UnfoldingOf(g, Key(root, false), t)
    ensures UnfoldingOf(g, StepKey(Top(trail)), s) && Top(trail).done <= s.children
    ensures DepthBefore(g, trail, |trail| - 1) + Span(g, s) <= Span(g, t)
    ensures LeavesBefore(g, keepEmpty, trail, |trail| - 1) + Leaves(g, keepEmpty, s)
      <= Leaves(g, keepEmpty, t)
    ensures Keys(s) <= Keys(t) && memo.Keys <= Keys(t) && Active(trail, |trail|) <= Views(t)
    ensures Walk(s, Active(trail, |trail| - 1), Top(trail).entry, activeFirst).None? ==>
      Walk(t, {}, {}, activeFirst).None?
    ensures Rows(g, keepEmpty, s).None? ==> Rows(g, keepEmpty, t).None?
  {
    var last := |trail| - 1;
    s := StepInside(g, keepEmpty, root, trail, memo.Keys, activeFirst, t, last);
    assert Walked(trail, last, memo.Keys, activeFirst);
    WalkKidsWithin(s, Top(trail).done, Active(trail, |trail|), Top(trail).entry, activeFirst);
    forall v | v in Active(trail, |trail|) ensures v in Views(t) {
      var i :| 0 <= i < |trail| && trail[i].view == v;
      var u := StepInside(g, keepEmpty, root, trail, memo.Keys, activeFirst, t, i);
      RootIsKey(u);
      assert KeyOf(u) in Keys(t);
    }
  }

  lemma {:induction false} NextChildExists(g: Graph, step: Step, s: Tree)
    requires UnfoldingOf(g, StepKey(step), s) && HasNext(g, step)
    ensures |step.done| < |s.children|
    ensures UnfoldingOf(g, ChildKey(NextRef(g, step)), s.children[|step.done|])
  {
    ChildUnfolds(g, s, |step.done|);
  }

  /** Meeting an active view that the memo table cannot answer stops the walk of the unfolding. */
  lemma {:induction false} ActiveChildStops(
    g: Graph, root: ViewId, trail: seq<Step>, memo: map<Key, Tree>, activeFirst: bool, t: Tree)
    requires SearchOk(g, root, trail, memo, activeFirst) && UnfoldingOf(g, Key(root, false), t)
    requires HasNext(g, Top(trail)) && NextRef(g, Top(trail)).source in Active(trail, |trail|)
    requires activeFirst || ChildKey(NextRef(g, Top(trail))) !in memo
    ensures Walk(t, {}, {}, activeFirst).None?
  {
    hide Unfolds, MemoOk, Waits, Keys, Span, Leaves, Rows, WalkKids, StepOk, DoneWithin;
    var last := |trail| - 1;
    var s := SearchInside(g, false, root, trail, memo, activeFirst, t);
    NextChildExists(g, Top(trail), s);
    assert Walked(trail, last, memo.Keys, activeFirst);
    ActiveNextStopsKids(
      s.children, Top(trail).done, Active(trail, |trail|), Top(trail).entry, memo.Keys, activeFirst);
    assert Active(trail, |trail|) == Active(trail, last) + {s.view};
  }

  lemma {:induction false} ActiveNextStopsKids(
    kids: seq<Tree>, done: seq<Tree>, above: set<ViewId>, entry: set<Key>, seen: set<Key>, activeFirst: bool)
    requires done < kids && WalkKids(done, above, entry, activeFirst) == Some(seen)
    requires kids[|done|].view in above && (activeFirst || KeyOf(kids[|done|]) !in seen)
    ensures WalkKids(kids, above, entry, activeFirst).None?
  {
    var more := kids[..|done| + 1];
    assert more[..|done|] == done && more[|done|] == kids[|done|];
    WalkKidsPrefix(kids, |more|, above, entry, activeFirst);
  }

  lemma {:induction false} StoppedNextStopsKids(
    kids: seq<Tree>, done: seq<Tree>, above: set<ViewId>, entry: set<Key>, seen: set<Key>, activeFirst: bool)
    requires done < kids && WalkKids(done, above, entry, activeFirst) == Some(seen)
    requires kids[|done|].view !in above && KeyOf(kids[|done|]) !in seen
    requires Walk(kids[|done|], above, seen, activeFirst).None?
    ensures WalkKids(kids, above, entry, activeFirst).None?
  {
    var more := kids[..|done| + 1];
    assert more[..|done|] == done && more[|done|] == kids[|done|];
    WalkKidsPrefix(kids, |more|, above, entry, activeFirst);
  }

  // ----- termination

  function StackKeys(trail: seq<Step>): set<Key> {
    set i | 0 <= i < |trail| :: StepKey(trail[i])
  }

  /** The keys that no step has been entered for yet: every key is entered at most once. */
  function Unentered(g: Graph, trail: seq<Step>, memo: map<Key, Tree>): set<Key> {
    (set v | v in g :: Key(v, false)) + (set v | v in g :: Key(v, true)) - memo.Keys - StackKeys(trail)
  }

  lemma {:induction false} EnteringIsNew(g: Graph, trail: seq<Step>, memo: map<Key, Tree>, s: Step)
    requires s.view in g && StepKey(s) !in memo && s.view !in Active(trail, |trail|)
    ensures Unentered(g, trail + [s], memo) < Unentered(g, trail, memo)
  {
    var longer := trail + [s];
    assert longer[|trail|] == s;
    assert StepKey(s) in StackKeys(longer);
    assert forall i | 0 <= i < |trail| :: longer[i] == trail[i];
    assert StackKeys(longer) == StackKeys(trail) + {StepKey(s)};
    assert StepKey(s) !in StackKeys(trail);
    var all := (set v | v in g :: Key(v, false)) + (set v | v in g :: Key(v, true));
    assert StepKey(s) in all;
  }

  lemma {:induction false} AdvancingEntersNothing(g: Graph, trail: seq<Step>, memo: map<Key, Tree>, s: Step)
    requires trail != [] && StepKey(s) == StepKey(Top(trail))
    ensures Unentered(g, WithTop(trail, s), memo) == Unentered(g, trail, memo)
  {
    var after := WithTop(trail, s);
    assert forall i | 0 <= i < |trail| :: StepKey(after[i]) == StepKey(trail[i]);
    assert StackKeys(after) == StackKeys(trail);
  }

  lemma {:induction false} LeavingEntersNothing(g: Graph, trail: seq<Step>, memo: map<Key, Tree>)
    requires trail != []
    ensures var t := Completed(Top(trail));
      Unentered(g, trail[..|trail| - 1], memo[KeyOf(t) := t]) == Unentered(g, trail, memo)
  {
    var last := |trail| - 1;
    var rest := trail[..last];
    assert forall i | 0 <= i < last :: rest[i] == trail[i];
    assert StackKeys(trail) == StackKeys(rest) + {StepKey(trail[last])};
  }
}
