/**
 The leaf-plan resolver: it flattens a view graph with an explicit stack of frames,
 a memo table indexed by view and selection, and running counters for the public
 limits.
 */
module LeafResolver {
  import opened Wrappers
  import opened Manifests
  import opened Unfoldings
  import opened LeafPlans
  import opened Cycles
  import opened Traversal
  import opened Parts

  datatype Failure = CyclicGraph | InvalidView | WorkLimit | DepthLimit | MemberLimit

  datatype PlanResult =
    | Planned(rows: seq<Row>, containers: set<ViewId>)
    | Declined
    | Rejected(reason: Failure)

  /** The rows of one view with the overlay span below it. */
  datatype Resolved = Resolved(rows: seq<Row>, span: nat)

  /** One suspended view; `pending` is the result of reference `next`, not yet merged. */
  datatype Frame = Frame(
    view: ViewId, localOnly: bool, depth: nat, resolved: seq<Row>, span: nat, next: nat,
    pending: Option<Resolved>)

  // ----- the contract

  /** Everything a plan needs, said of the unfolding alone. */
  ghost predicate Admitted(g: Graph, keepEmpty: bool, limits: Limits, t: Tree)
    requires Unfolds(g, t)
  {
    && Walk(t, {}, {}, false).Some?
    && AllValid(g, t)
    && !Exceeds(limits.work, WorkOf(g, Views(t)))
    && !Exceeds(limits.depth, Span(g, t))
    && !Exceeds(limits.members, Leaves(g, keepEmpty, t))
    && Rows(g, keepEmpty, t).Some?
    && |Rows(g, keepEmpty, t).value| >= 2
  }

  ghost predicate Justified(g: Graph, keepEmpty: bool, limits: Limits, t: Tree, result: PlanResult)
    requires Unfolds(g, t)
  {
    match result
    case Planned(rows, containers) =>
      Admitted(g, keepEmpty, limits, t) && Rows(g, keepEmpty, t) == Some(rows) && containers == Views(t)
    case Declined =>
      Rows(g, keepEmpty, t).None? || |Rows(g, keepEmpty, t).value| < 2
    case Rejected(CyclicGraph) => Walk(t, {}, {}, false).None?
    case Rejected(InvalidView) => !AllValid(g, t)
    case Rejected(WorkLimit) => Exceeds(limits.work, WorkOf(g, Views(t)))
    case Rejected(DepthLimit) => Exceeds(limits.depth, Span(g, t))
    case Rejected(MemberLimit) => Exceeds(limits.members, Leaves(g, keepEmpty, t))
  }

  // ----- the invariant of the loop

  ghost predicate FrameOk(
    g: Graph, keepEmpty: bool, limits: Limits, trail: seq<Step>, i: nat, frame: Frame)
    requires i < |trail| && StepOk(g, trail[i])
  {
    && var step := trail[i];
    && frame.view == step.view && frame.localOnly == step.local
    && frame.depth == DepthBefore(g, trail, i + 1)
    && |step.done| == frame.next + (if frame.pending.Some? then 1 else 0)
    && KidsUnfold(g, step.view, step.done[..frame.next])
    && KidsRows(g, keepEmpty, step.view, step.done[..frame.next]) == Some(frame.resolved)
    && frame.span == OverlayIncrement(g, step.view) + KidsSpan(g, step.done[..frame.next])
    && !Exceeds(limits.depth, DepthBefore(g, trail, i) + frame.span)
    && (frame.pending.Some? ==>
          && ResolvedAs(g, keepEmpty, step.done[frame.next], frame.pending.value)
          && !Exceeds(limits.depth, frame.depth + frame.pending.value.span))
  }

  ghost predicate ResolvedAs(g: Graph, keepEmpty: bool, t: Tree, r: Resolved) {
    Unfolds(g, t) && Rows(g, keepEmpty, t) == Some(r.rows) && Span(g, t) == r.span
  }

  ghost predicate FramesOk(g: Graph, keepEmpty: bool, limits: Limits, trail: seq<Step>, stack: seq<Frame>) {
    && |stack| == |trail|
    && (forall i | 0 <= i < |stack| ::
          StepOk(g, trail[i]) && FrameOk(g, keepEmpty, limits, trail, i, stack[i]))
    && (forall i | 0 <= i < |stack| - 1 :: stack[i].pending.None?)
  }

  ghost predicate CacheOk(g: Graph, keepEmpty: bool, memo: map<Key, Tree>, cache: map<Key, Resolved>) {
    cache.Keys == memo.Keys && forall k | k in cache :: ResolvedAs(g, keepEmpty, memo[k], cache[k])
  }

  /** The counters: each view is validated and charged once, each row of the stack is charged once. */
  ghost predicate BooksOk(
    g: Graph, keepEmpty: bool, limits: Limits, trail: seq<Step>, memo: map<Key, Tree>,
    active: set<ViewId>, retained: set<ViewId>, work: nat, leaves: nat)
  {
    && active == Active(trail, |trail|)
    && retained == ViewsOf(memo.Keys) + active
    && (forall v | v in retained :: v in g && ValidView(g, v))
    && work == WorkOf(g, retained) && !Exceeds(limits.work, work)
    && leaves == LeavesBefore(g, keepEmpty, trail, |trail|) && !Exceeds(limits.members, leaves)
  }

  // ----- one lemma per move

  lemma {:induction false} LeavesByDone(g: Graph, keepEmpty: bool, trail: seq<Step>, other: seq<Step>, n: nat)
    requires n <= |trail| && n <= |other|
    requires forall i | 0 <= i < n :: trail[i].done == other[i].done
    ensures LeavesBefore(g, keepEmpty, trail, n) == LeavesBefore(g, keepEmpty, other, n)
  {
    if n > 0 {
      LeavesByDone(g, keepEmpty, trail, other, n - 1);
    }
  }

  lemma {:induction false} FrameOkAlike(
    g: Graph, keepEmpty: bool, limits: Limits, trail: seq<Step>, other: seq<Step>, i: nat, frame: Frame)
    requires i < |trail| && StepOk(g, trail[i]) && FrameOk(g, keepEmpty, limits, trail, i, frame)
    requires i < |other| && trail[i] == other[i]
    requires forall k | 0 <= k < i :: trail[k].view == other[k].view
    ensures StepOk(g, other[i]) && FrameOk(g, keepEmpty, limits, other, i, frame)
  {
    DepthByViews(g, trail, other, i);
    DepthByViews(g, trail, other, i + 1);
  }

  function TopFrame(stack: seq<Frame>): Frame
    requires stack != []
  {
    stack[|stack| - 1]
  }

  /** Frames below the top stay as they are while the top step and its frame change together. */
  lemma {:induction false} TopFrameChanges(
    g: Graph, keepEmpty: bool, limits: Limits, trail: seq<Step>, stack: seq<Frame>,
    step: Step, frame: Frame)
    requires |stack| == |trail| > 0 && step.view == Top(trail).view
    requires forall i | 0 <= i < |stack| - 1 ::
      StepOk(g, trail[i]) && FrameOk(g, keepEmpty, limits, trail, i, stack[i]) && stack[i].pending.None?
    requires var after := WithTop(trail, step);
      StepOk(g, step) && FrameOk(g, keepEmpty, limits, after, |trail| - 1, frame)
    ensures FramesOk(g, keepEmpty, limits, WithTop(trail, step), stack[..|stack| - 1] + [frame])
  {
    hide FrameOk, StepOk;
    var after := WithTop(trail, step);
    forall i | 0 <= i < |stack| - 1
      ensures StepOk(g, after[i]) && FrameOk(g, keepEmpty, limits, after, i, stack[i])
    {
      FrameOkAlike(g, keepEmpty, limits, trail, after, i, stack[i]);
    }
  }

  /** The top frame once its pending result is merged. */
  function Merged(frame: Frame, applied: seq<Row>, increment: nat): Frame
    requires frame.pending.Some?
  {
    var span := increment + frame.pending.value.span;
    frame.(resolved := frame.resolved + applied,
           span := if span > frame.span then span else frame.span,
           next := frame.next + 1,
           pending := None)
  }

  lemma {:induction false} MergeKeepsFrames(
    g: Graph, keepEmpty: bool, limits: Limits, trail: seq<Step>, stack: seq<Frame>, applied: seq<Row>)
    requires FramesOk(g, keepEmpty, limits, trail, stack) && |stack| > 0
    requires var f := TopFrame(stack);
      && f.pending.Some? && f.next < |Refs(g, f.view)|
      && ApplyReference(g, Refs(g, f.view)[f.next], f.next, f.pending.value.rows) == Some(applied)
    ensures var f := TopFrame(stack);
      FramesOk(g, keepEmpty, limits, trail,
        stack[..|stack| - 1] + [Merged(f, applied, OverlayIncrement(g, f.view))])
  {
    hide FrameOk;
    var f := TopFrame(stack);
    assert WithTop(trail, Top(trail)) == trail;
    MergeKeepsFrame(g, keepEmpty, limits, trail, |stack| - 1, f, applied);
    TopFrameChanges(g, keepEmpty, limits, trail, stack, Top(trail),
      Merged(f, applied, OverlayIncrement(g, f.view)));
  }

  lemma {:induction false} MergeKeepsFrame(
    g: Graph, keepEmpty: bool, limits: Limits, trail: seq<Step>, i: nat, f: Frame, applied: seq<Row>)
    requires i < |trail| && StepOk(g, trail[i]) && FrameOk(g, keepEmpty, limits, trail, i, f)
    requires f.pending.Some? && f.next < |Refs(g, f.view)|
    requires ApplyReference(g, Refs(g, f.view)[f.next], f.next, f.pending.value.rows) == Some(applied)
    ensures FrameOk(g, keepEmpty, limits, trail, i, Merged(f, applied, OverlayIncrement(g, f.view)))
  {
    hide ApplyReference, Unfolds, Rows, Span;
    var done := trail[i].done;
    var longer := done[..f.next + 1];
    assert longer == done;
    assert longer[..f.next] == done[..f.next];
  }

  lemma {:induction false} MergeDeclines(
    g: Graph, keepEmpty: bool, limits: Limits, root: ViewId, trail: seq<Step>, memo: map<Key, Tree>,
    stack: seq<Frame>, t: Tree)
    requires SearchOk(g, root, trail, memo, false)
    requires FramesOk(g, keepEmpty, limits, trail, stack)
    requires var f := TopFrame(stack);
      && f.pending.Some? && f.next < |Refs(g, f.view)|
      && ApplyReference(g, Refs(g, f.view)[f.next], f.next, f.pending.value.rows).None?
    requires UnfoldingOf(g, Key(root, false), t)
    ensures Rows(g, keepEmpty, t).None?
  {
    hide ApplyReference, Walk, StepOk, FrameOk, Unfolds, KidsUnfold, Rows;
    var last := |trail| - 1;
    assert FrameOk(g, keepEmpty, limits, trail, last, stack[last]);
    var s := SearchInside(g, keepEmpty, root, trail, memo, false, t);
    PendingFailsParent(g, keepEmpty, limits, trail, last, stack[last], s);
  }

  lemma {:induction false} PendingFailsParent(
    g: Graph, keepEmpty: bool, limits: Limits, trail: seq<Step>, i: nat, f: Frame, s: Tree)
    requires i < |trail| && StepOk(g, trail[i]) && FrameOk(g, keepEmpty, limits, trail, i, f)
    requires f.pending.Some? && f.next < |Refs(g, f.view)|
    requires ApplyReference(g, Refs(g, f.view)[f.next], f.next, f.pending.value.rows).None?
    requires Unfolds(g, s) && s.view == trail[i].view && trail[i].done <= s.children
    ensures Rows(g, keepEmpty, s).None?
  {
    hide ApplyReference, Unfolds;
    var done := trail[i].done;
    assert s.children[..|done|] == done;
    assert KidsUnfold(g, s.view, s.children) by {
      UnfoldsKids(g, s);
    }
    KidsRowsPrefix(g, keepEmpty, s.view, s.children, |done|);
  }

  lemma {:induction false} UnfoldsKids(g: Graph, t: Tree)
    requires Unfolds(g, t)
    ensures KidsUnfold(g, t.view, t.children)
  {
  }

  lemma {:induction false} RecallKeepsFrames(
    g: Graph, keepEmpty: bool, limits: Limits, trail: seq<Step>, stack: seq<Frame>, c: Tree, found: Resolved)
    requires FramesOk(g, keepEmpty, limits, trail, stack) && |stack| > 0
    requires TopFrame(stack).pending.None? && HasNext(g, Top(trail))
    requires UnfoldingOf(g, ChildKey(NextRef(g, Top(trail))), c) && ResolvedAs(g, keepEmpty, c, found)
    requires !Exceeds(limits.depth, TopFrame(stack).depth + found.span)
    ensures FramesOk(g, keepEmpty, limits,
      WithTop(trail, Top(trail).(done := Top(trail).done + [c])),
      stack[..|stack| - 1] + [TopFrame(stack).(pending := Some(found))])
  {
    var last := |stack| - 1;
    hide FrameOk;
    var f := TopFrame(stack);
    var step := Top(trail).(done := Top(trail).done + [c]);
    var after := WithTop(trail, step);
    StepGrows(g, Top(trail), c);
    RecallKeepsFrame(g, keepEmpty, limits, trail, after, last, f, c, found);
    TopFrameChanges(g, keepEmpty, limits, trail, stack, step, f.(pending := Some(found)));
  }

  lemma {:induction false} RecallKeepsFrame(
    g: Graph, keepEmpty: bool, limits: Limits, trail: seq<Step>, after: seq<Step>, i: nat, f: Frame,
    c: Tree, found: Resolved)
    requires i < |trail| == |after| && StepOk(g, trail[i]) && FrameOk(g, keepEmpty, limits, trail, i, f)
    requires forall k | 0 <= k < i :: after[k] == trail[k]
    requires after[i] == trail[i].(done := trail[i].done + [c]) && StepOk(g, after[i])
    requires f.pending.None? && ResolvedAs(g, keepEmpty, c, found)
    requires !Exceeds(limits.depth, f.depth + found.span)
    ensures FrameOk(g, keepEmpty, limits, after, i, f.(pending := Some(found)))
  {
    hide Unfolds, KidsUnfold, Rows, Span, KidsRows, KidsSpan;
    assert after[i].done[..f.next] == trail[i].done == trail[i].done[..f.next];
    DepthByViews(g, trail, after, i);
    DepthByViews(g, trail, after, i + 1);
  }

  lemma {:induction false} EnterKeepsFrames(
    g: Graph, keepEmpty: bool, limits: Limits, trail: seq<Step>, stack: seq<Frame>, s: Step, frame: Frame)
    requires FramesOk(g, keepEmpty, limits, trail, stack) && |stack| > 0
    requires TopFrame(stack).pending.None?
    requires StepOk(g, s) && s.done == []
    requires var increment := OverlayIncrement(g, s.view);
      var depth := TopFrame(stack).depth + increment;
      && frame == Frame(s.view, s.local, depth, [], increment, 0, None)
      && !Exceeds(limits.depth, depth)
    ensures FramesOk(g, keepEmpty, limits, trail + [s], stack + [frame])
  {
    hide FrameOk, StepOk;
    var longer := trail + [s];
    FreshFrame(g, keepEmpty, limits, trail, TopFrame(stack), s, frame);
    forall i | 0 <= i < |longer|
      ensures StepOk(g, longer[i]) && FrameOk(g, keepEmpty, limits, longer, i, (stack + [frame])[i])
    {
      if i < |trail| {
        FrameOkAlike(g, keepEmpty, limits, trail, longer, i, stack[i]);
      }
    }
  }

  lemma {:induction false} FreshFrame(
    g: Graph, keepEmpty: bool, limits: Limits, trail: seq<Step>, parent: Frame, s: Step, frame: Frame)
    requires |trail| > 0 && StepOk(g, Top(trail))
    requires FrameOk(g, keepEmpty, limits, trail, |trail| - 1, parent)
    requires StepOk(g, s) && s.done == []
    requires var increment := OverlayIncrement(g, s.view);
      var depth := parent.depth + increment;
      && frame == Frame(s.view, s.local, depth, [], increment, 0, None)
      && !Exceeds(limits.depth, depth)
    ensures FrameOk(g, keepEmpty, limits, trail + [s], |trail|, frame)
  {
    DepthByViews(g, trail, trail + [s], |trail|);
    assert s.done[..0] == [];
  }

  /** What a finished frame leaves behind. */
  function Result(g: Graph, keepEmpty: bool, frame: Frame): Resolved {
    Resolved(
      frame.resolved + (if HasLocalLeaf(g, keepEmpty, frame.view) then [LocalRow(g, frame.view)] else []),
      frame.span)
  }

  lemma {:induction false} ResultIsPlan(
    g: Graph, keepEmpty: bool, limits: Limits, trail: seq<Step>, stack: seq<Frame>)
    requires FramesOk(g, keepEmpty, limits, trail, stack) && |stack| > 0
    requires TopFrame(stack).pending.None? && !HasNext(g, Top(trail))
    ensures var r := Result(g, keepEmpty, TopFrame(stack));
      && ResolvedAs(g, keepEmpty, Completed(Top(trail)), r)
      && !Exceeds(limits.depth, DepthBefore(g, trail, |trail| - 1) + r.span)
  {
    hide FrameOk;
    FrameResult(g, keepEmpty, limits, trail, |trail| - 1, TopFrame(stack));
  }

  lemma {:induction false} FrameResult(
    g: Graph, keepEmpty: bool, limits: Limits, trail: seq<Step>, i: nat, f: Frame)
    requires i < |trail| && StepOk(g, trail[i]) && FrameOk(g, keepEmpty, limits, trail, i, f)
    requires f.pending.None? && !HasNext(g, trail[i])
    ensures var r := Result(g, keepEmpty, f);
      && ResolvedAs(g, keepEmpty, Completed(trail[i]), r)
      && !Exceeds(limits.depth, DepthBefore(g, trail, i) + r.span)
  {
    hide KidsRows, KidsSpan;
    assert trail[i].done[..f.next] == trail[i].done;
    assert Unfolds(g, Completed(trail[i]));
  }

  lemma {:induction false} FrameDepth(
    g: Graph, keepEmpty: bool, limits: Limits, trail: seq<Step>, i: nat, f: Frame)
    requires i < |trail| && StepOk(g, trail[i]) && FrameOk(g, keepEmpty, limits, trail, i, f)
    ensures f.depth == DepthBefore(g, trail, i + 1)
  {
  }

  lemma {:induction false} LeaveKeepsFrames(
    g: Graph, keepEmpty: bool, limits: Limits, trail: seq<Step>, stack: seq<Frame>)
    requires FramesOk(g, keepEmpty, limits, trail, stack) && |stack| > 1
    requires TopFrame(stack).pending.None? && !HasNext(g, Top(trail))
    requires var rest := trail[..|trail| - 1];
      HasNext(g, Top(rest)) && ChildKey(NextRef(g, Top(rest))) == StepKey(Top(trail))
    ensures var rest := trail[..|trail| - 1];
      var below := stack[..|stack| - 1];
      FramesOk(g, keepEmpty, limits,
        WithTop(rest, Top(rest).(done := Top(rest).done + [Completed(Top(trail))])),
        below[..|below| - 1] + [TopFrame(below).(pending := Some(Result(g, keepEmpty, TopFrame(stack))))])
  {
    hide FrameOk, StepOk;
    var last := |trail| - 1;
    var rest, below := trail[..last], stack[..last];
    ResultIsPlan(g, keepEmpty, limits, trail, stack);
    assert FramesOk(g, keepEmpty, limits, rest, below) by {
      forall i | 0 <= i < |rest|
        ensures StepOk(g, rest[i]) && FrameOk(g, keepEmpty, limits, rest, i, below[i])
      {
        FrameOkAlike(g, keepEmpty, limits, trail, rest, i, stack[i]);
      }
    }
    DepthByViews(g, trail, rest, last);
    FrameDepth(g, keepEmpty, limits, rest, last - 1, TopFrame(below));
    RecallKeepsFrames(g, keepEmpty, limits, rest, below, Completed(Top(trail)),
      Result(g, keepEmpty, TopFrame(stack)));
  }

  // ----- the counters

  lemma {:induction false} EnteringCharges(
    g: Graph, keepEmpty: bool, limits: Limits, trail: seq<Step>, memo: map<Key, Tree>,
    active: set<ViewId>, retained: set<ViewId>, work: nat, leaves: nat, s: Step)
    requires BooksOk(g, keepEmpty, limits, trail, memo, active, retained, work, leaves)
    requires s.view in g && ValidView(g, s.view) && s.done == []
    requires var more := if s.view in retained then 0 else g[s.view].work;
      !Exceeds(limits.work, work + more)
    ensures var more := if s.view in retained then 0 else g[s.view].work;
      BooksOk(g, keepEmpty, limits, trail + [s], memo, active + {s.view}, retained + {s.view},
        work + more, leaves)
  {
    hide ValidView, WorkOf;
    var longer := trail + [s];
    ActiveByViews(trail, longer, |trail|);
    assert longer[|trail|] == s;
    assert Active(longer, |longer|) == Active(trail, |trail|) + {s.view};
    assert Active(longer, |longer|) == active + {s.view};
    LeavesByDone(g, keepEmpty, trail, longer, |trail|);
    if s.view in retained {
      assert retained + {s.view} == retained;
    } else {
      WorkOfAdd(g, retained, s.view);
    }
  }

  lemma {:induction false} RecallingCharges(
    g: Graph, keepEmpty: bool, limits: Limits, trail: seq<Step>, memo: map<Key, Tree>,
    active: set<ViewId>, retained: set<ViewId>, work: nat, leaves: nat, c: Tree, found: Resolved)
    requires BooksOk(g, keepEmpty, limits, trail, memo, active, retained, work, leaves)
    requires trail != [] && ResolvedAs(g, keepEmpty, c, found)
    requires !Exceeds(limits.members, leaves + |found.rows|)
    ensures BooksOk(g, keepEmpty, limits, WithTop(trail, Top(trail).(done := Top(trail).done + [c])),
      memo, active, retained, work, leaves + |found.rows|)
  {
    hide ValidView;
    var step := Top(trail).(done := Top(trail).done + [c]);
    var after := WithTop(trail, step);
    ActiveByViews(trail, after, |trail|);
    LeavesByDone(g, keepEmpty, trail, after, |trail| - 1);
    RowsPerLeaf(g, keepEmpty, c);
    assert step.done[..|Top(trail).done|] == Top(trail).done;
  }

  /** A finished frame hands its charge to its parent: nothing but its own local leaf is added. */
  lemma {:induction false} LeavingCharges(
    g: Graph, keepEmpty: bool, limits: Limits, trail: seq<Step>, memo: map<Key, Tree>,
    active: set<ViewId>, retained: set<ViewId>, work: nat, leaves: nat)
    requires BooksOk(g, keepEmpty, limits, trail, memo, active, retained, work, leaves)
    requires |trail| > 1 && Top(trail).view !in Active(trail, |trail| - 1)
    requires !Exceeds(limits.members, leaves + if HasLocalLeaf(g, keepEmpty, Top(trail).view) then 1 else 0)
    ensures var rest := trail[..|trail| - 1];
      var t := Completed(Top(trail));
      BooksOk(g, keepEmpty, limits, WithTop(rest, Top(rest).(done := Top(rest).done + [t])),
        memo[KeyOf(t) := t], active - {t.view}, retained, work,
        leaves + if HasLocalLeaf(g, keepEmpty, t.view) then 1 else 0)
  {
    hide ValidView, WorkOf, HasLocalLeaf;
    var last := |trail| - 1;
    var rest := trail[..last];
    var t := Completed(Top(trail));
    var step := Top(rest).(done := Top(rest).done + [t]);
    var after := WithTop(rest, step);
    ActiveByViews(trail, after, last);
    assert active == Active(trail, last) + {t.view};
    assert memo[KeyOf(t) := t].Keys == memo.Keys + {KeyOf(t)};
    assert ViewsOf(memo.Keys + {KeyOf(t)}) == ViewsOf(memo.Keys) + {t.view};
    LeavesByDone(g, keepEmpty, trail, after, last - 1);
    assert step.done[..|Top(rest).done|] == Top(rest).done;
    assert LeavesBefore(g, keepEmpty, trail, last) ==
      LeavesBefore(g, keepEmpty, trail, last - 1) + KidsLeaves(g, keepEmpty, Top(rest).done);
    assert Active(after, last) == active - {t.view};
    assert retained == ViewsOf(memo[KeyOf(t) := t].Keys) + (active - {t.view});
    assert LeavesBefore(g, keepEmpty, after, last) == LeavesBefore(g, keepEmpty, trail, last) + Leaves(g, keepEmpty, t);
    assert LeavesBefore(g, keepEmpty, trail, |trail|) == LeavesBefore(g, keepEmpty, trail, last) + KidsLeaves(g, keepEmpty, t.children);
  }

  // ----- termination

  /** What a frame still does without entering a view. */
  function Remaining(g: Graph, s: Step, frame: Frame): nat {
    1 + (if frame.pending.Some? then 1 else 0) +
    (if |s.done| <= |Refs(g, s.view)| then 2 * (|Refs(g, s.view)| - |s.done|) else 0)
  }

  function StackRemaining(g: Graph, trail: seq<Step>, stack: seq<Frame>): nat
    requires |trail| == |stack|
  {
    if stack == [] then 0 else
      var last := |stack| - 1;
      StackRemaining(g, trail[..last], stack[..last]) + Remaining(g, trail[last], stack[last])
  }

  lemma {:induction false} MergingProgresses(g: Graph, trail: seq<Step>, stack: seq<Frame>, merged: Frame)
    requires |trail| == |stack| > 0 && TopFrame(stack).pending.Some? && merged.pending.None?
    ensures StackRemaining(g, trail, stack[..|stack| - 1] + [merged]) < StackRemaining(g, trail, stack)
  {
    var after := stack[..|stack| - 1] + [merged];
    assert after[..|stack| - 1] == stack[..|stack| - 1];
  }

  lemma {:induction false} RecallingProgresses(
    g: Graph, trail: seq<Step>, memo: map<Key, Tree>, stack: seq<Frame>, c: Tree, found: Resolved)
    requires |trail| == |stack| > 0 && HasNext(g, Top(trail)) && TopFrame(stack).pending.None?
    ensures var after := WithTop(trail, Top(trail).(done := Top(trail).done + [c]));
      && Unentered(g, after, memo) == Unentered(g, trail, memo)
      && StackRemaining(g, after, stack[..|stack| - 1] + [TopFrame(stack).(pending := Some(found))])
           < StackRemaining(g, trail, stack)
  {
    var last := |trail| - 1;
    var step := Top(trail).(done := Top(trail).done + [c]);
    var frames := stack[..last] + [TopFrame(stack).(pending := Some(found))];
    AdvancingEntersNothing(g, trail, memo, step);
    assert WithTop(trail, step)[..last] == trail[..last] && frames[..last] == stack[..last];
  }

  lemma {:induction false} LeavingProgresses(
    g: Graph, trail: seq<Step>, memo: map<Key, Tree>, stack: seq<Frame>, found: Resolved)
    requires |trail| == |stack| > 1
    requires HasNext(g, trail[|trail| - 2]) && stack[|stack| - 2].pending.None?
    ensures var t := Completed(Top(trail));
      var rest, below := trail[..|trail| - 1], stack[..|stack| - 1];
      var after := WithTop(rest, Top(rest).(done := Top(rest).done + [t]));
      && Unentered(g, after, memo[KeyOf(t) := t]) == Unentered(g, trail, memo)
      && StackRemaining(g, after, below[..|below| - 1] + [TopFrame(below).(pending := Some(found))])
           < StackRemaining(g, trail, stack)
  {
    var t := Completed(Top(trail));
    var rest, below := trail[..|trail| - 1], stack[..|stack| - 1];
    LeavingEntersNothing(g, trail, memo);
    RecallingProgresses(g, rest, memo[KeyOf(t) := t], below, t, found);
  }

  lemma {:induction false} TopIsNotBelow(g: Graph, root: ViewId, trail: seq<Step>, memo: map<Key, Tree>)
    requires SearchOk(g, root, trail, memo, false) && |trail| > 1
    ensures Top(trail).view !in Active(trail, |trail| - 1)
  {
    assert Waits(g, trail, |trail| - 2);
  }

  // ----- the refusals

  /** What the stack has seen, with what is known of the view the next reference names. */
  lemma {:induction false} NextSeen(
    g: Graph, keepEmpty: bool, limits: Limits, root: ViewId, trail: seq<Step>, memo: map<Key, Tree>,
    active: set<ViewId>, retained: set<ViewId>, work: nat, leaves: nat)
    returns (part: Tree, c: Tree)
    requires SearchOk(g, root, trail, memo, false) && HasNext(g, Top(trail))
    requires BooksOk(g, keepEmpty, limits, trail, memo, active, retained, work, leaves)
    ensures PartOf(g, root, part)
    ensures var key := ChildKey(NextRef(g, Top(trail)));
      && c == (if key in memo then memo[key] else Tree(key.view, key.local, []))
      && c.view == key.view && key.view in Views(part)
      && (key.view in g && key.view !in retained ==> work + g[key.view].work <= WorkOf(g, Views(part)))
    ensures DepthBefore(g, trail, |trail|) + Span(g, c) <= Span(g, part)
    ensures leaves + Leaves(g, keepEmpty, c) <= Leaves(g, keepEmpty, part)
  {
    hide StepOk, Waits, Walked, DoneWithin, ValidView, Span, Leaves, Keys, Part, Unfolds;
    var key := ChildKey(NextRef(g, Top(trail)));
    SearchHasSteps(g, root, trail, memo, false);
    c := if key in memo then memo[key] else Tree(key.view, key.local, []);
    if key in memo {
      UnfoldingIsPart(g, c);
    } else {
      UnopenedPart(g, keepEmpty, key);
    }
    part := NextPart(g, keepEmpty, root, trail, c);
    NestHasAll(g, root, trail, memo, false, [c]);
    SeenWork(g, retained, key.view, Views(part), work);
  }

  /** When the root frame is finished, its result is the plan of the whole unfolding. */
  lemma {:induction false} RootFinishes(
    g: Graph, keepEmpty: bool, limits: Limits, root: ViewId, trail: seq<Step>, memo: map<Key, Tree>,
    active: set<ViewId>, retained: set<ViewId>, work: nat, leaves: nat, stack: seq<Frame>)
    requires SearchOk(g, root, trail, memo, false) && !HasNext(g, Top(trail)) && |trail| == 1
    requires |stack| == 1 && FramesOk(g, keepEmpty, limits, trail, stack) && TopFrame(stack).pending.None?
    requires BooksOk(g, keepEmpty, limits, trail, memo, active, retained, work, leaves)
    requires !Exceeds(limits.members, leaves + if HasLocalLeaf(g, keepEmpty, root) then 1 else 0)
    ensures var rows := Result(g, keepEmpty, TopFrame(stack)).rows;
      var t := Completed(Top(trail));
      && UnfoldingOf(g, Key(root, false), t)
      && Rows(g, keepEmpty, t) == Some(rows)
      && retained == Views(t)
      && (|rows| >= 2 ==> Admitted(g, keepEmpty, limits, t))
  {
    hide FrameOk, ValidView, SearchOk, FramesOk, Walk, Rows, Unfolds;
    var t := Completed(Top(trail));
    SearchLeaves(g, root, trail, memo, false);
    ResultIsPlan(g, keepEmpty, limits, trail, stack);
    RowsPerLeaf(g, keepEmpty, t);
    assert retained == Views(t) by {
      WalkWithin(t, {}, {}, false);
      assert Active(trail, 1) == {root};
      assert memo[KeyOf(t) := t].Keys == memo.Keys + {KeyOf(t)};
      assert ViewsOf(memo.Keys + {KeyOf(t)}) == ViewsOf(memo.Keys) + {t.view};
    }
    assert DepthBefore(g, trail, 0) == 0;
    assert LeavesBefore(g, keepEmpty, trail, 1) == KidsLeaves(g, keepEmpty, t.children);
  }

  lemma {:induction false} ValidViewExists(g: Graph, v: ViewId)
    requires ValidView(g, v)
    ensures v in g
  {
  }

  lemma {:induction false} RootStarts(g: Graph, keepEmpty: bool, limits: Limits, root: ViewId)
    requires ValidView(g, root)
    requires !Exceeds(limits.work, g[root].work) && !Exceeds(limits.depth, OverlayIncrement(g, root))
    ensures var trail := [Step(root, false, [], {})];
      var depth := OverlayIncrement(g, root);
      && SearchOk(g, root, trail, map[], false)
      && FramesOk(g, keepEmpty, limits, trail, [Frame(root, false, depth, [], depth, 0, None)])
      && BooksOk(g, keepEmpty, limits, trail, map[], {root}, {root}, g[root].work, 0)
  {
    var trail := [Step(root, false, [], {})];
    SearchStarts(g, root, false);
    WorkOfAdd(g, {}, root);
    assert {} + {root} == {root};
    assert Active(trail, 1) == {root};
    assert trail[0].done[..0] == [];
    assert DepthBefore(g, trail, 0) == 0 && DepthBefore(g, trail, 1) == OverlayIncrement(g, root);
    assert LeavesBefore(g, keepEmpty, trail, 0) == 0 && LeavesBefore(g, keepEmpty, trail, 1) == 0;
  }

  /** The top frame and the top step tell the same story. */
  lemma {:induction false} TopFrameAgrees(
    g: Graph, keepEmpty: bool, limits: Limits, trail: seq<Step>, stack: seq<Frame>)
    requires FramesOk(g, keepEmpty, limits, trail, stack) && |stack| > 0
    ensures |trail| == |stack|
    ensures |stack| > 1 ==> stack[|stack| - 2].pending.None?
    ensures var f := TopFrame(stack);
      && f.view == Top(trail).view && f.localOnly == Top(trail).local && f.view in g
      && |Top(trail).done| == f.next + (if f.pending.Some? then 1 else 0) <= |Refs(g, f.view)|
      && f.depth == DepthBefore(g, trail, |trail|)
      && (f.localOnly ==> f.next == 0 && f.pending.None?)
  {
    assert FrameOk(g, keepEmpty, limits, trail, |trail| - 1, TopFrame(stack));
  }

  // ----- the loop

  /** The local variables of the loop. */
  datatype State = State(
    stack: seq<Frame>, cache: map<Key, Resolved>, active: set<ViewId>, retained: set<ViewId>,
    work: nat, leaves: nat)

  datatype Task = Task(graph: Graph, root: ViewId, keepEmpty: bool, limits: Limits)

  ghost predicate LoopOk(task: Task, trail: seq<Step>, memo: map<Key, Tree>, s: State) {
    && |s.stack| > 0
    && SearchOk(task.graph, task.root, trail, memo, false)
    && FramesOk(task.graph, task.keepEmpty, task.limits, trail, s.stack)
    && CacheOk(task.graph, task.keepEmpty, memo, s.cache)
    && BooksOk(task.graph, task.keepEmpty, task.limits, trail, memo, s.active, s.retained, s.work, s.leaves)
  }

  /** The part of the unfolding that was seen gives the reason for the refusal. */
  ghost predicate Shown(task: Task, why: Failure, part: Tree) {
    match why
    case CyclicGraph => !NoReferenceCycle(task.graph, task.root)
    case InvalidView => !AllValid(task.graph, part)
    case WorkLimit => Exceeds(task.limits.work, WorkOf(task.graph, Views(part)))
    case DepthLimit => Exceeds(task.limits.depth, Span(task.graph, part))
    case MemberLimit => Exceeds(task.limits.members, Leaves(task.graph, task.keepEmpty, part))
  }

  /** Reference `i` of a view cannot place its selector on the rows of its source. */
  ghost predicate Stuck(task: Task, v: ViewId, i: nat, c: Tree) {
    && i < |Refs(task.graph, v)| && UnfoldingOf(task.graph, ChildKey(Refs(task.graph, v)[i]), c)
    && Rows(task.graph, task.keepEmpty, c).Some?
    && ApplyReference(task.graph, Refs(task.graph, v)[i], i, Rows(task.graph, task.keepEmpty, c).value).None?
  }

  /** The answer is well founded also where the view has no finite unfolding. */
  ghost predicate Grounded(task: Task, result: PlanResult) {
    match result
    case Planned(_, _) => HasUnfolding(task.graph, task.root)
    case Declined =>
      || HasUnfolding(task.graph, task.root)
      || exists part, v, i, c ::
           PartOf(task.graph, task.root, part) && Key(v, false) in Keys(part) && Stuck(task, v, i, c)
    case Rejected(why) => exists part :: PartOf(task.graph, task.root, part) && Shown(task, why, part)
  }

  ghost predicate AllJustified(task: Task, result: PlanResult) {
    && Grounded(task, result)
    && forall t | UnfoldingOf(task.graph, Key(task.root, false), t) ::
         Justified(task.graph, task.keepEmpty, task.limits, t, result)
  }

  /** What a part shows refuses the whole unfolding, if there is one. */
  lemma {:induction false} ShownRefuses(task: Task, why: Failure, part: Tree)
    requires PartOf(task.graph, task.root, part) && Shown(task, why, part) && !why.CyclicGraph?
    ensures AllJustified(task, Rejected(why))
  {
    hide Part, Unfolds, ValidView, Keys, Walk, Rows;
    var g, keepEmpty, limits := task.graph, task.keepEmpty, task.limits;
    forall t | UnfoldingOf(g, Key(task.root, false), t)
      ensures Justified(g, keepEmpty, limits, t, Rejected(why))
    {
      PartInUnfolding(g, keepEmpty, part, t);
      WorkOfMonotone(g, Views(part), Views(t));
    }
  }

  /** Fewer keys left to enter, or the same keys and less left to do on the stack. */
  ghost predicate Progress(
    task: Task, trail: seq<Step>, memo: map<Key, Tree>, s: State,
    trail': seq<Step>, memo': map<Key, Tree>, s': State)
    requires |trail| == |s.stack| && |trail'| == |s'.stack|
  {
    || Unentered(task.graph, trail', memo') < Unentered(task.graph, trail, memo)
    || (&& Unentered(task.graph, trail', memo') == Unentered(task.graph, trail, memo)
        && StackRemaining(task.graph, trail', s'.stack) < StackRemaining(task.graph, trail, s.stack))
  }

  /** What the code may read off its own variables. */
  lemma {:induction false} LoopFacts(task: Task, trail: seq<Step>, memo: map<Key, Tree>, s: State)
    requires LoopOk(task, trail, memo, s)
    ensures |trail| == |s.stack|
    ensures var f := TopFrame(s.stack);
      && f.view in task.graph && StepKey(Top(trail)) == Key(f.view, f.localOnly)
      && (f.pending.Some? ==> f.next < |Refs(task.graph, f.view)|)
      && (HasNext(task.graph, Top(trail)) <==>
            !f.localOnly && f.next + (if f.pending.Some? then 1 else 0) < |Refs(task.graph, f.view)|)
      && (f.pending.None? && HasNext(task.graph, Top(trail)) ==>
            NextRef(task.graph, Top(trail)) == Refs(task.graph, f.view)[f.next])
    ensures forall v | v in s.retained :: v in task.graph && ValidView(task.graph, v)
    ensures !Exceeds(task.limits.work, s.work) && !Exceeds(task.limits.members, s.leaves)
  {
    hide FrameOk, ValidView, SearchOk, Unfolds, KidsUnfold;
    TopFrameAgrees(task.graph, task.keepEmpty, task.limits, trail, s.stack);
  }

  lemma {:induction false} MergeMove(task: Task, trail: seq<Step>, memo: map<Key, Tree>, s: State, applied: Option<seq<Row>>)
    requires LoopOk(task, trail, memo, s)
    requires var f := TopFrame(s.stack);
      && f.pending.Some? && f.next < |Refs(task.graph, f.view)|
      && applied == ApplyReference(
           task.graph, Refs(task.graph, f.view)[f.next], f.next, f.pending.value.rows)
    ensures applied.None? ==> AllJustified(task, Declined)
    ensures applied.Some? ==>
      var f := TopFrame(s.stack);
      var s' := s.(stack := s.stack[..|s.stack| - 1] +
                            [Merged(f, applied.value, OverlayIncrement(task.graph, f.view))]);
      |trail| == |s.stack| && LoopOk(task, trail, memo, s') && Progress(task, trail, memo, s, trail, memo, s')
  {
    hide FrameOk, SearchOk, BooksOk, ApplyReference, CacheOk, Walk, Rows, StackRemaining, Unentered;
    if applied.None? {
      MergeIsStuck(task, trail, memo, s);
      forall t | UnfoldingOf(task.graph, Key(task.root, false), t)
        ensures Justified(task.graph, task.keepEmpty, task.limits, t, Declined)
      {
        MergeDeclines(task.graph, task.keepEmpty, task.limits, task.root, trail, memo, s.stack, t);
      }
    } else {
      var f := TopFrame(s.stack);
      MergeKeepsFrames(task.graph, task.keepEmpty, task.limits, trail, s.stack, applied.value);
      MergingProgresses(task.graph, trail, s.stack,
        Merged(f, applied.value, OverlayIncrement(task.graph, f.view)));
    }
  }

  lemma {:induction false} MergeIsStuck(task: Task, trail: seq<Step>, memo: map<Key, Tree>, s: State)
    requires LoopOk(task, trail, memo, s)
    requires var f := TopFrame(s.stack);
      && f.pending.Some? && f.next < |Refs(task.graph, f.view)|
      && ApplyReference(task.graph, Refs(task.graph, f.view)[f.next], f.next, f.pending.value.rows).None?
    ensures Grounded(task, Declined)
  {
    hide ApplyReference, Walked, Waits, DoneWithin, MemoOk, Rows, Span, Part, Keys, BooksOk, CacheOk;
    var f := TopFrame(s.stack);
    TopFrameAgrees(task.graph, task.keepEmpty, task.limits, trail, s.stack);
    PendingIsStuck(task, trail, s.stack);
    SearchHasSteps(task.graph, task.root, trail, memo, false);
    var part := MetPart(task.graph, task.keepEmpty, task.root, trail);
    NestHasAll(task.graph, task.root, trail, memo, false, []);
    assert Key(f.view, false) in Keys(part);
  }

  lemma {:induction false} PendingIsStuck(task: Task, trail: seq<Step>, stack: seq<Frame>)
    requires FramesOk(task.graph, task.keepEmpty, task.limits, trail, stack) && |stack| > 0
    requires var f := TopFrame(stack);
      && f.pending.Some? && f.next < |Refs(task.graph, f.view)|
      && ApplyReference(task.graph, Refs(task.graph, f.view)[f.next], f.next, f.pending.value.rows).None?
    ensures var f := TopFrame(stack);
      f.next < |Top(trail).done| && Stuck(task, f.view, f.next, Top(trail).done[f.next])
  {
    hide ApplyReference, KidsRows, KidsSpan;
    assert FrameOk(task.graph, task.keepEmpty, task.limits, trail, |trail| - 1, TopFrame(stack));
  }

  /** A view reached by the next reference refuses the whole unfolding when it is refused itself. */
  lemma {:induction false} NextRefusal(task: Task, trail: seq<Step>, memo: map<Key, Tree>, s: State, why: Failure, found: nat)
    requires LoopOk(task, trail, memo, s) && HasNext(task.graph, Top(trail))
    requires var key := ChildKey(NextRef(task.graph, Top(trail)));
      var frame := TopFrame(s.stack);
      match why
      case InvalidView => !ValidView(task.graph, key.view)
      case WorkLimit =>
        && key.view in task.graph && key.view !in s.retained
        && Exceeds(task.limits.work, s.work + task.graph[key.view].work)
      case DepthLimit =>
        && frame.pending.None?
        && Exceeds(task.limits.depth, frame.depth + found)
        && (if key in s.cache then found == s.cache[key].span
            else found == OverlayIncrement(task.graph, key.view))
      case MemberLimit => key in s.cache && Exceeds(task.limits.members, s.leaves + |s.cache[key].rows|)
      case CyclicGraph => key !in s.cache && key.view in s.active
    ensures AllJustified(task, Rejected(why))
  {
    hide FrameOk, ValidView, SearchOk, Unfolds, Walk, Part, Keys, Span, Leaves, Rows, WorkOf, BooksOk;
    var g, keepEmpty, limits := task.graph, task.keepEmpty, task.limits;
    var key := ChildKey(NextRef(g, Top(trail)));
    TopFrameAgrees(g, keepEmpty, limits, trail, s.stack);
    ActiveIsTrail(task, trail, memo, s);
    var part, c := NextSeen(g, keepEmpty, limits, task.root, trail, memo, s.active, s.retained, s.work, s.leaves);
    if why.CyclicGraph? {
      ActiveRefuses(task, trail, memo, part);
    } else {
      if key in s.cache {
        RowsPerLeaf(g, keepEmpty, c);
      } else {
        UnopenedPart(g, keepEmpty, key);
      }
      ShownRefuses(task, why, part);
    }
  }

  /** Meeting an active view is a cycle of references, and stops the walk of any unfolding. */
  lemma {:induction false} ActiveRefuses(task: Task, trail: seq<Step>, memo: map<Key, Tree>, part: Tree)
    requires SearchOk(task.graph, task.root, trail, memo, false) && HasNext(task.graph, Top(trail))
    requires NextRef(task.graph, Top(trail)).source in Active(trail, |trail|)
    requires ChildKey(NextRef(task.graph, Top(trail))) !in memo && PartOf(task.graph, task.root, part)
    ensures AllJustified(task, Rejected(CyclicGraph))
  {
    hide Walk, Part, StepOk, Waits, Walked, DoneWithin, MemoOk, NoReferenceCycle, Unfolds;
    SearchHasSteps(task.graph, task.root, trail, memo, false);
    ActiveNextIsCycle(task.graph, task.root, trail);
    assert Shown(task, CyclicGraph, part);
    forall t | UnfoldingOf(task.graph, Key(task.root, false), t) ensures Walk(t, {}, {}, false).None? {
      ActiveChildStops(task.graph, task.root, trail, memo, false, t);
    }
  }

  lemma {:induction false} RecallMove(task: Task, trail: seq<Step>, memo: map<Key, Tree>, s: State)
    returns (trail': seq<Step>)
    requires LoopOk(task, trail, memo, s) && HasNext(task.graph, Top(trail))
    requires var f := TopFrame(s.stack);
      var key := ChildKey(NextRef(task.graph, Top(trail)));
      && f.pending.None? && key in s.cache
      && !Exceeds(task.limits.depth, f.depth + s.cache[key].span)
      && !Exceeds(task.limits.members, s.leaves + |s.cache[key].rows|)
    ensures var found := s.cache[ChildKey(NextRef(task.graph, Top(trail)))];
      var s' := s.(stack := s.stack[..|s.stack| - 1] + [TopFrame(s.stack).(pending := Some(found))],
                   leaves := s.leaves + |found.rows|);
      && |trail'| == |trail| == |s.stack|
      && LoopOk(task, trail', memo, s')
      && Progress(task, trail, memo, s, trail', memo, s')
  {
    hide FrameOk, ValidView, SearchOk, FramesOk, Unfolds, BooksOk, MemoOk, Unentered, StackRemaining, Rows, Span;
    var g, keepEmpty, limits := task.graph, task.keepEmpty, task.limits;
    TopFrameAgrees(g, keepEmpty, limits, trail, s.stack);
    var key := ChildKey(NextRef(g, Top(trail)));
    var c, found := memo[key], s.cache[key];
    trail' := WithTop(trail, Top(trail).(done := Top(trail).done + [c]));
    MemoUnfolds(g, task.root, trail, memo, key);
    SearchRecalls(g, task.root, trail, memo, false);
    RecallKeepsFrames(g, keepEmpty, limits, trail, s.stack, c, found);
    RecallingCharges(g, keepEmpty, limits, trail, memo, s.active, s.retained, s.work, s.leaves, c, found);
    RecallingProgresses(g, trail, memo, s.stack, c, found);
  }

  lemma {:induction false} MemoUnfolds(g: Graph, root: ViewId, trail: seq<Step>, memo: map<Key, Tree>, key: Key)
    requires SearchOk(g, root, trail, memo, false) && key in memo
    ensures UnfoldingOf(g, key, memo[key])
  {
  }

  lemma {:induction false} EmptyStepOk(g: Graph, step: Step)
    requires step.view in g && step.done == []
    ensures StepOk(g, step)
  {
  }

  lemma {:induction false} ActiveIsTrail(task: Task, trail: seq<Step>, memo: map<Key, Tree>, s: State)
    requires LoopOk(task, trail, memo, s)
    ensures s.active == Active(trail, |trail|)
  {
  }

  lemma {:induction false} EnterMove(task: Task, trail: seq<Step>, memo: map<Key, Tree>, s: State, entered: Frame)
    returns (trail': seq<Step>)
    requires LoopOk(task, trail, memo, s) && HasNext(task.graph, Top(trail))
    requires var f := TopFrame(s.stack);
      var key := ChildKey(NextRef(task.graph, Top(trail)));
      var increment := OverlayIncrement(task.graph, key.view);
      && f.pending.None? && key !in s.cache && key.view !in s.active
      && key.view in task.graph && ValidView(task.graph, key.view)
      && entered == Frame(key.view, key.local, f.depth + increment, [], increment, 0, None)
      && !Exceeds(task.limits.depth, entered.depth)
      && !Exceeds(task.limits.work,
           s.work + if key.view in s.retained then 0 else task.graph[key.view].work)
    ensures var key := ChildKey(NextRef(task.graph, Top(trail)));
      var s' := s.(stack := s.stack + [entered], active := s.active + {key.view},
                   retained := s.retained + {key.view},
                   work := s.work + if key.view in s.retained then 0 else task.graph[key.view].work);
      && |trail| == |s.stack| && |trail'| == |s.stack| + 1
      && LoopOk(task, trail', memo, s')
      && Progress(task, trail, memo, s, trail', memo, s')
  {
    hide FrameOk, ValidView, SearchOk, FramesOk, Unfolds, BooksOk, MemoOk, StepOk, Unentered, StackRemaining;
    var g, keepEmpty, limits := task.graph, task.keepEmpty, task.limits;
    TopFrameAgrees(g, keepEmpty, limits, trail, s.stack);
    var key := ChildKey(NextRef(g, Top(trail)));
    var step := Step(key.view, key.local, [], memo.Keys);
    trail' := trail + [step];
    EmptyStepOk(g, step);
    ActiveIsTrail(task, trail, memo, s);
    SearchEnters(g, task.root, trail, memo, false);
    EnterKeepsFrames(g, keepEmpty, limits, trail, s.stack, step, entered);
    EnteringCharges(g, keepEmpty, limits, trail, memo, s.active, s.retained, s.work, s.leaves, step);
    EnteringIsNew(g, trail, memo, step);
  }

  lemma {:induction false} LocalRefusal(task: Task, trail: seq<Step>, memo: map<Key, Tree>, s: State)
    requires LoopOk(task, trail, memo, s) && !HasNext(task.graph, Top(trail))
    requires HasLocalLeaf(task.graph, task.keepEmpty, Top(trail).view)
    requires Exceeds(task.limits.members, s.leaves + 1)
    ensures AllJustified(task, Rejected(MemberLimit))
  {
    hide FrameOk, ValidView, SearchOk, Unfolds, Part, Leaves;
    SearchHasSteps(task.graph, task.root, trail, memo, false);
    var part := MetPart(task.graph, task.keepEmpty, task.root, trail);
    ShownRefuses(task, MemberLimit, part);
  }

  lemma {:induction false} RootMove(task: Task, trail: seq<Step>, memo: map<Key, Tree>, s: State, result: PlanResult)
    requires LoopOk(task, trail, memo, s) && !HasNext(task.graph, Top(trail))
    requires |s.stack| == 1 && TopFrame(s.stack).pending.None?
    requires var own := if HasLocalLeaf(task.graph, task.keepEmpty, Top(trail).view) then 1 else 0;
      !Exceeds(task.limits.members, s.leaves + own)
    requires var rows := Result(task.graph, task.keepEmpty, TopFrame(s.stack)).rows;
      result == if |rows| < 2 then Declined else Planned(rows, s.retained)
    ensures AllJustified(task, result)
    ensures HasUnfolding(task.graph, task.root)
  {
    hide FrameOk, ValidView, Unfolds, FramesOk, StepOk, Waits, Walked, DoneWithin, MemoOk, CacheOk, BooksOk, Stuck,
      Part, Keys, Walk, Rows, WorkOf, Span, Leaves;
    var g, keepEmpty, limits := task.graph, task.keepEmpty, task.limits;
    assert Top(trail).view == task.root && |trail| == 1 by {
      TopFrameAgrees(g, keepEmpty, limits, trail, s.stack);
    }
    RootFinishes(g, keepEmpty, limits, task.root, trail, memo, s.active, s.retained, s.work, s.leaves, s.stack);
    forall t | UnfoldingOf(g, Key(task.root, false), t) ensures Justified(g, keepEmpty, limits, t, result) {
      UnfoldingIsUnique(g, t, Completed(Top(trail)));
    }
  }

  lemma {:induction false} LeaveMove(task: Task, trail: seq<Step>, memo: map<Key, Tree>, s: State, s': State)
    returns (trail': seq<Step>, memo': map<Key, Tree>)
    requires LoopOk(task, trail, memo, s) && !HasNext(task.graph, Top(trail))
    requires |s.stack| > 1 && TopFrame(s.stack).pending.None?
    requires var f := TopFrame(s.stack);
      var done := Result(task.graph, task.keepEmpty, f);
      var below := s.stack[..|s.stack| - 1];
      && s'.stack == below[..|below| - 1] + [TopFrame(below).(pending := Some(done))]
      && s'.cache == s.cache[Key(f.view, f.localOnly) := done]
      && s'.active == s.active - {f.view}
      && s'.retained == s.retained && s'.work == s.work
      && s'.leaves == s.leaves + (if HasLocalLeaf(task.graph, task.keepEmpty, f.view) then 1 else 0)
      && !Exceeds(task.limits.members, s'.leaves)
    ensures LoopOk(task, trail', memo', s')
    ensures |trail| == |s.stack| && |trail'| == |s'.stack|
    ensures Progress(task, trail, memo, s, trail', memo', s')
  {
    hide FrameOk, ValidView, Unfolds, SearchOk, BooksOk, FramesOk, MemoOk, Unentered, StackRemaining, Rows, Exceeds, Remaining;
    var g, keepEmpty, limits := task.graph, task.keepEmpty, task.limits;
    var done := Result(g, keepEmpty, TopFrame(s.stack));
    TopFrameAgrees(g, keepEmpty, limits, trail, s.stack);
    var t := Completed(Top(trail));
    var rest := trail[..|trail| - 1];
    ResultIsPlan(g, keepEmpty, limits, trail, s.stack);
    SearchLeaves(g, task.root, trail, memo, false);
    LeaveKeepsFrames(g, keepEmpty, limits, trail, s.stack);
    TopIsNotBelow(g, task.root, trail, memo);
    LeavingCharges(g, keepEmpty, limits, trail, memo, s.active, s.retained, s.work, s.leaves);
    LeavingProgresses(g, trail, memo, s.stack, done);
    trail' := WithTop(rest, Top(rest).(done := Top(rest).done + [t]));
    memo' := memo[KeyOf(t) := t];
  }

  lemma {:induction false} RootRefusal(task: Task, why: Failure)
    requires task.root in task.graph
    requires
      || (why.WorkLimit? && Exceeds(task.limits.work, task.graph[task.root].work))
      || (why.DepthLimit? && Exceeds(task.limits.depth, OverlayIncrement(task.graph, task.root)))
    ensures AllJustified(task, Rejected(why))
  {
    var part := Tree(task.root, false, []);
    UnopenedPart(task.graph, task.keepEmpty, Key(task.root, false));
    RootIsKey(part);
    assert {} <= Views(part) && WorkOf(task.graph, {}) == 0;
    SeenWork(task.graph, {}, task.root, Views(part), 0);
    ShownRefuses(task, why, part);
  }

  /** Opens a view: it must not be active, and its first visit is charged to the work limit. */
  method Start(
    g: Graph, key: Key, parentDepth: nat, limits: Limits, active: set<ViewId>, retained: set<ViewId>,
    work: nat)
    returns (refusal: Option<Failure>, frame: Frame, charged: nat)
    requires key.view in g
    ensures charged == work + if key.view in retained then 0 else g[key.view].work
    ensures var increment := OverlayIncrement(g, key.view);
      frame == Frame(key.view, key.local, parentDepth + increment, [], increment, 0, None)
    ensures match refusal
      case None =>
        && key.view !in active
        && (key.view in retained || !Exceeds(limits.work, charged))
        && !Exceeds(limits.depth, frame.depth)
      case Some(CyclicGraph) => key.view in active
      case Some(WorkLimit) =>
        key.view !in active && key.view !in retained && Exceeds(limits.work, charged)
      case Some(DepthLimit) =>
        && key.view !in active
        && (key.view in retained || !Exceeds(limits.work, charged))
        && Exceeds(limits.depth, frame.depth)
      case Some(_) => false
  {
    refusal := None;
    charged := work;
    var increment := OverlayIncrement(g, key.view);
    frame := Frame(key.view, key.local, parentDepth + increment, [], increment, 0, None);
    if key.view !in retained {
      charged := charged + g[key.view].work;
    }
    if key.view in active {
      refusal := Some(CyclicGraph);
    } else if key.view !in retained && Exceeds(limits.work, charged) {
      refusal := Some(WorkLimit);
    } else if Exceeds(limits.depth, frame.depth) {
      refusal := Some(DepthLimit);
    }
  }

  /** Turns to the next reference of the top frame: recalls its source, or opens it. */
  method Visit(task: Task, s: State, ghost trail: seq<Step>, ghost memo: map<Key, Tree>)
    returns (refusal: Option<Failure>, after: State, ghost trail': seq<Step>)
    requires LoopOk(task, trail, memo, s) && |trail| == |s.stack|
    requires var f := TopFrame(s.stack);
      f.pending.None? && !f.localOnly && f.next < |Refs(task.graph, f.view)|
    ensures refusal.Some? ==> AllJustified(task, Rejected(refusal.value))
    ensures refusal.None? ==>
      && |trail'| == |after.stack|
      && LoopOk(task, trail', memo, after)
      && Progress(task, trail, memo, s, trail', memo, after)
  {
    hide LoopOk, ValidView, AllJustified, Progress;
    LoopFacts(task, trail, memo, s);
    refusal, after, trail' := None, s, trail;
    var frame := TopFrame(s.stack);
    var ref := Refs(task.graph, frame.view)[frame.next];
    var key := ChildKey(ref);
    if key.view !in s.retained && !ValidView(task.graph, key.view) {
      NextRefusal(task, trail, memo, s, InvalidView, 0);
      refusal := Some(InvalidView);
      return;
    }
    ValidViewExists(task.graph, key.view);
    if key in s.cache {
      var found := s.cache[key];
      if Exceeds(task.limits.depth, frame.depth + found.span) {
        NextRefusal(task, trail, memo, s, DepthLimit, found.span);
        refusal := Some(DepthLimit);
      } else if Exceeds(task.limits.members, s.leaves + |found.rows|) {
        NextRefusal(task, trail, memo, s, MemberLimit, 0);
        refusal := Some(MemberLimit);
      } else {
        trail' := RecallMove(task, trail, memo, s);
        after := s.(stack := s.stack[..|s.stack| - 1] + [frame.(pending := Some(found))],
                    leaves := s.leaves + |found.rows|);
      }
    } else {
      var entered, charged;
      refusal, entered, charged :=
        Start(task.graph, key, frame.depth, task.limits, s.active, s.retained, s.work);
      if refusal.Some? {
        NextRefusal(task, trail, memo, s, refusal.value, OverlayIncrement(task.graph, key.view));
      } else {
        trail' := EnterMove(task, trail, memo, s, entered);
        after := s.(stack := s.stack + [entered], active := s.active + {key.view},
                    retained := s.retained + {key.view}, work := charged);
      }
    }
  }

  /** Closes the top frame: charges its own leaf, records it, and hands its result to its parent. */
  method Finish(task: Task, s: State, ghost trail: seq<Step>, ghost memo: map<Key, Tree>)
    returns (result: Option<PlanResult>, after: State, ghost trail': seq<Step>, ghost memo': map<Key, Tree>)
    requires LoopOk(task, trail, memo, s) && |trail| == |s.stack|
    requires var f := TopFrame(s.stack);
      f.pending.None? && (f.localOnly || f.next >= |Refs(task.graph, f.view)|)
    ensures result.Some? ==>
      && AllJustified(task, result.value)
      && (result.value.Planned? ==> HasUnfolding(task.graph, task.root))
    ensures result.None? ==>
      && |trail'| == |after.stack|
      && LoopOk(task, trail', memo', after)
      && Progress(task, trail, memo, s, trail', memo', after)
  {
    hide LoopOk, AllJustified, HasUnfolding, Progress, HasLocalLeaf;
    LoopFacts(task, trail, memo, s);
    result, after, trail', memo' := None, s, trail, memo;
    var frame := TopFrame(s.stack);
    var done := Result(task.graph, task.keepEmpty, frame);
    var own := if HasLocalLeaf(task.graph, task.keepEmpty, frame.view) then 1 else 0;
    if own == 1 && Exceeds(task.limits.members, s.leaves + 1) {
      LocalRefusal(task, trail, memo, s);
      result := Some(Rejected(MemberLimit));
    } else if |s.stack| == 1 {
      var plan := if |done.rows| < 2 then Declined else Planned(done.rows, s.retained);
      RootMove(task, trail, memo, s, plan);
      result := Some(plan);
    } else {
      var below := s.stack[..|s.stack| - 1];
      after := s.(stack := below[..|below| - 1] + [TopFrame(below).(pending := Some(done))],
                  cache := s.cache[Key(frame.view, frame.localOnly) := done],
                  active := s.active - {frame.view},
                  leaves := s.leaves + own);
      trail', memo' := LeaveMove(task, trail, memo, s, after);
    }
  }

  method ResolveLeafPlan(g: Graph, root: ViewId, keepEmpty: bool, limits: Limits)
    returns (result: PlanResult)
    requires ValidView(g, root)
    ensures result.Planned? ==> HasUnfolding(g, root)
    ensures AllJustified(Task(g, root, keepEmpty, limits), result)
  {
    var task := Task(g, root, keepEmpty, limits);
    var refusal, first, work := Start(g, Key(root, false), 0, limits, {}, {}, 0);
    if refusal.Some? {
      RootRefusal(task, refusal.value);
      return Rejected(refusal.value);
    }
    var s := State([first], map[], {root}, {root}, work, 0);
    ghost var trail := [Step(root, false, [], {})];
    ghost var memo: map<Key, Tree> := map[];
    RootStarts(g, keepEmpty, limits, root);
    assert LoopOk(task, trail, memo, s);
    hide LoopOk, AllJustified, HasUnfolding, Unentered, StackRemaining;
    while true
      invariant |trail| == |s.stack|
      invariant LoopOk(task, trail, memo, s)
      decreases Unentered(g, trail, memo), StackRemaining(g, trail, s.stack)
    {
      LoopFacts(task, trail, memo, s);
      var frame := TopFrame(s.stack);
      if frame.pending.Some? {
        var applied := ApplyReference(g, Refs(g, frame.view)[frame.next], frame.next, frame.pending.value.rows);
        MergeMove(task, trail, memo, s, applied);
        if applied.None? {
          return Declined;
        }
        var merged := Merged(frame, applied.value, OverlayIncrement(g, frame.view));
        s := s.(stack := s.stack[..|s.stack| - 1] + [merged]);
      } else if !frame.localOnly && frame.next < |Refs(g, frame.view)| {
        refusal, s, trail := Visit(task, s, trail, memo);
        if refusal.Some? {
          return Rejected(refusal.value);
        }
      } else {
        var finished;
        finished, s, trail, memo := Finish(task, s, trail, memo);
        if finished.Some? {
          return finished.value;
        }
      }
    }
  }
}
