/**
 The native enumeration of leaf paths: it walks the view graph a second time, without
 looking at any plan, and returns the coordinates every complete plan must have.
 */
module PathEnumerator {
  import opened Wrappers
  import opened Manifests
  import opened Unfoldings
  import opened LeafPlans
  import opened LeafPaths
  import opened Cycles
  import opened Traversal
  import opened Parts

  datatype Refusal = ActiveCycle | InvalidNode | WorkLimit | DepthLimit | LeafLimit

  datatype Enumeration = Enumerated(paths: set<Path>, work: nat) | Refused(reason: Refusal)

  /** The native limits are always present. */
  datatype Bounds = Bounds(work: nat, depth: nat, leaves: nat)

  datatype Task = Task(graph: Graph, root: ViewId, keepEmpty: bool, bounds: Bounds)

  datatype Topology = Topology(paths: seq<Path>, span: nat)

  /** One suspended view; `next` is the next child and `pending` the child being walked. */
  datatype Frame = Frame(
    view: ViewId, localOnly: bool, next: nat, pending: Option<nat>, paths: seq<Path>, span: nat, depth: nat)

  /** The local variables of the loop. */
  datatype State = State(
    stack: seq<Frame>, resolved: map<Key, Topology>, active: set<ViewId>, validated: set<ViewId>, work: nat)

  /** What the enumeration demands of every view it meets. */
  predicate ValidNode(g: Graph, v: ViewId) {
    ValidManifest(g, v) && EmptyWithoutLocal(g, v)
  }

  // ----- the contract

  ghost predicate AllValidNodes(g: Graph, t: Tree) {
    forall v | v in Views(t) :: ValidNode(g, v)
  }

  ghost predicate Enumerable(task: Task, t: Tree) {
    && Walk(t, {}, {}, true).Some?
    && AllValidNodes(task.graph, t)
    && WorkOf(task.graph, Views(t)) <= task.bounds.work
    && Span(task.graph, t) <= task.bounds.depth
    && Leaves(task.graph, task.keepEmpty, t) <= task.bounds.leaves
  }

  ghost predicate Justified(task: Task, t: Tree, result: Enumeration) {
    match result
    case Enumerated(paths, work) =>
      && Enumerable(task, t)
      && paths == PathSet(Paths(task.graph, task.keepEmpty, t))
      && work == WorkOf(task.graph, Views(t))
    case Refused(ActiveCycle) => Walk(t, {}, {}, true).None?
    case Refused(InvalidNode) => !AllValidNodes(task.graph, t)
    case Refused(WorkLimit) => WorkOf(task.graph, Views(t)) > task.bounds.work
    case Refused(DepthLimit) => Span(task.graph, t) > task.bounds.depth
    case Refused(LeafLimit) => Leaves(task.graph, task.keepEmpty, t) > task.bounds.leaves
  }

  /** The part of the unfolding that was seen gives the reason for the refusal. */
  ghost predicate Shown(task: Task, why: Refusal, part: Tree) {
    match why
    case ActiveCycle => !NoReferenceCycle(task.graph, task.root)
    case InvalidNode => !AllValidNodes(task.graph, part)
    case WorkLimit => WorkOf(task.graph, Views(part)) > task.bounds.work
    case DepthLimit => Span(task.graph, part) > task.bounds.depth
    case LeafLimit => Leaves(task.graph, task.keepEmpty, part) > task.bounds.leaves
  }

  /** The answer is well founded also where the view has no finite unfolding. */
  ghost predicate Grounded(task: Task, result: Enumeration) {
    match result
    case Enumerated(_, _) => HasUnfolding(task.graph, task.root)
    case Refused(why) => exists part :: PartOf(task.graph, task.root, part) && Shown(task, why, part)
  }

  ghost predicate AllJustified(task: Task, result: Enumeration) {
    && Grounded(task, result)
    && forall t | UnfoldingOf(task.graph, Key(task.root, false), t) :: Justified(task, t, result)
  }

  /** What a part shows refuses the whole unfolding, if there is one. */
  lemma {:induction false} ShownRefuses(task: Task, why: Refusal, part: Tree)
    requires PartOf(task.graph, task.root, part) && Shown(task, why, part) && !why.ActiveCycle?
    ensures AllJustified(task, Refused(why))
  {
    hide Part, Unfolds, ValidNode, Keys, Walk;
    forall t | UnfoldingOf(task.graph, Key(task.root, false), t) ensures Justified(task, t, Refused(why)) {
      PartInUnfolding(task.graph, task.keepEmpty, part, t);
      WorkOfMonotone(task.graph, Views(part), Views(t));
    }
  }

  // ----- the invariant of the loop

  ghost predicate FrameOk(task: Task, trail: seq<Step>, i: nat, frame: Frame, waiting: bool)
    requires i < |trail|
  {
    && var step := trail[i];
    && frame.view == step.view && frame.localOnly == step.local
    && frame.depth == DepthBefore(task.graph, trail, i + 1)
    && frame.next == (if step.local then |Refs(task.graph, step.view)| else |step.done|)
                     + (if waiting then 1 else 0)
    && frame.pending == (if waiting then Some(|step.done|) else None)
    && TopologyOf(task, step.view, step.done, frame.paths, frame.span)
    && |frame.paths| <= task.bounds.leaves
    && DepthBefore(task.graph, trail, i) + frame.span <= task.bounds.depth
  }

  ghost predicate TopologyOf(task: Task, v: ViewId, kids: seq<Tree>, paths: seq<Path>, span: nat) {
    && paths == OwnPaths(task.graph, task.keepEmpty, v) + KidsPaths(task.graph, task.keepEmpty, kids)
    && span == OverlayIncrement(task.graph, v) + KidsSpan(task.graph, kids)
  }

  ghost predicate ResolvedAs(task: Task, t: Tree, r: Topology) {
    r.paths == Paths(task.graph, task.keepEmpty, t) && r.span == Span(task.graph, t)
  }

  ghost predicate FramesOk(task: Task, trail: seq<Step>, stack: seq<Frame>) {
    && |stack| == |trail|
    && forall i | 0 <= i < |stack| :: FrameOk(task, trail, i, stack[i], i < |stack| - 1)
  }

  ghost predicate CacheOk(task: Task, memo: map<Key, Tree>, resolved: map<Key, Topology>) {
    resolved.Keys == memo.Keys && forall k | k in resolved :: ResolvedAs(task, memo[k], resolved[k])
  }

  ghost predicate BooksOk(task: Task, trail: seq<Step>, memo: map<Key, Tree>, s: State) {
    && s.active == Active(trail, |trail|)
    && s.validated == ViewsOf(memo.Keys) + s.active
    && (forall v | v in s.validated :: v in task.graph && ValidNode(task.graph, v))
    && s.work == WorkOf(task.graph, s.validated) <= task.bounds.work
  }

  ghost predicate LoopOk(task: Task, trail: seq<Step>, memo: map<Key, Tree>, s: State) {
    && |s.stack| > 0
    && SearchOk(task.graph, task.root, trail, memo, true)
    && FramesOk(task, trail, s.stack)
    && CacheOk(task, memo, s.resolved)
    && BooksOk(task, trail, memo, s)
  }

  function TopFrame(stack: seq<Frame>): Frame
    requires stack != []
  {
    stack[|stack| - 1]
  }

  /** A frame with one more child merged in. */
  function Merged(task: Task, frame: Frame, segment: nat, child: Topology): Frame {
    var span := OverlayIncrement(task.graph, frame.view) + child.span;
    frame.(paths := frame.paths + Prefixed(segment, child.paths),
           span := if span > frame.span then span else frame.span,
           pending := None)
  }

  function MergeRefusal(task: Task, frame: Frame, child: Topology): Option<Refusal> {
    if frame.depth + child.span > task.bounds.depth then Some(DepthLimit)
    else if |frame.paths| + |child.paths| > task.bounds.leaves then Some(LeafLimit)
    else None
  }

  // ----- frames

  lemma {:induction false} FrameOkAlike(
    task: Task, trail: seq<Step>, other: seq<Step>, i: nat, frame: Frame, waiting: bool)
    requires i < |trail| && FrameOk(task, trail, i, frame, waiting)
    requires i < |other| && trail[i] == other[i]
    requires forall k | 0 <= k < i :: trail[k].view == other[k].view
    ensures FrameOk(task, other, i, frame, waiting)
  {
    DepthByViews(task.graph, trail, other, i);
    DepthByViews(task.graph, trail, other, i + 1);
  }

  lemma {:induction false} MergeKeepsFrame(
    task: Task, trail: seq<Step>, after: seq<Step>, i: nat, frame: Frame, waiting: bool, c: Tree, child: Topology)
    requires i < |trail| == |after| && FrameOk(task, trail, i, frame, waiting) && !trail[i].local
    requires forall k | 0 <= k < i :: after[k] == trail[k]
    requires after[i] == trail[i].(done := trail[i].done + [c])
    requires ResolvedAs(task, c, child) && MergeRefusal(task, frame, child).None?
    ensures FrameOk(task, after, i,
      Merged(task, frame, |trail[i].done|, child).(next := |trail[i].done| + 1), false)
  {
    hide Unfolds, HasLocalLeaf, Prefixed;
    var done := trail[i].done;
    assert (done + [c])[..|done|] == done;
    DepthByViews(task.graph, trail, after, i);
    DepthByViews(task.graph, trail, after, i + 1);
  }

  /** The frames below a new top keep their story. */
  lemma {:induction false} FramesGrow(task: Task, trail: seq<Step>, stack: seq<Frame>, after: seq<Step>, frames: seq<Frame>)
    requires |frames| == |after| > 0 && |after| <= |stack| == |trail|
    requires after[..|after| - 1] == trail[..|after| - 1]
    requires frames[..|after| - 1] == stack[..|after| - 1]
    requires forall i | 0 <= i < |after| - 1 :: FrameOk(task, trail, i, stack[i], true)
    requires FrameOk(task, after, |after| - 1, TopFrame(frames), false)
    ensures FramesOk(task, after, frames)
  {
    hide FrameOk;
    forall i | 0 <= i < |after| - 1 ensures FrameOk(task, after, i, frames[i], true) {
      assert after[i] == after[..|after| - 1][i] && trail[i] == trail[..|after| - 1][i];
      assert frames[i] == frames[..|after| - 1][i] && stack[i] == stack[..|after| - 1][i];
      assert forall k | 0 <= k < i :: after[k] == after[..|after| - 1][k] == trail[k];
      FrameOkAlike(task, trail, after, i, stack[i], true);
    }
  }

  // ----- the books

  lemma {:induction false} EnteringCharges(
    task: Task, trail: seq<Step>, memo: map<Key, Tree>, s: State, step: Step, s': State)
    requires BooksOk(task, trail, memo, s)
    requires step.view in task.graph && ValidNode(task.graph, step.view)
    requires s'.active == s.active + {step.view} && s'.validated == s.validated + {step.view}
    requires s'.work == s.work + (if step.view in s.validated then 0 else task.graph[step.view].work)
    requires s'.work <= task.bounds.work
    ensures BooksOk(task, trail + [step], memo, s')
  {
    hide ValidNode;
    var longer := trail + [step];
    ActiveByViews(trail, longer, |trail|);
    assert longer[|trail|] == step;
    assert Active(longer, |longer|) == Active(trail, |trail|) + {step.view};
    if step.view in s.validated {
      assert s.validated + {step.view} == s.validated;
    } else {
      WorkOfAdd(task.graph, s.validated, step.view);
    }
  }

  lemma {:induction false} AdvancingKeepsBooks(
    task: Task, trail: seq<Step>, memo: map<Key, Tree>, s: State, step: Step, s': State)
    requires BooksOk(task, trail, memo, s) && trail != [] && step.view == Top(trail).view
    requires s'.active == s.active && s'.validated == s.validated && s'.work == s.work
    ensures BooksOk(task, WithTop(trail, step), memo, s')
  {
    ActiveByViews(trail, WithTop(trail, step), |trail|);
  }

  lemma {:induction false} LeavingKeepsBooks(
    task: Task, trail: seq<Step>, memo: map<Key, Tree>, s: State, step: Step, s': State)
    requires BooksOk(task, trail, memo, s) && |trail| > 1 && step.view == trail[|trail| - 2].view
    requires Top(trail).view !in Active(trail, |trail| - 1)
    requires s'.active == s.active - {Top(trail).view} && s'.validated == s.validated && s'.work == s.work
    ensures var t := Completed(Top(trail));
      BooksOk(task, WithTop(trail[..|trail| - 1], step), memo[KeyOf(t) := t], s')
  {
    hide ValidNode;
    var last := |trail| - 1;
    var t := Completed(Top(trail));
    var after := WithTop(trail[..last], step);
    ActiveByViews(trail, after, last);
    assert s.active == Active(trail, last) + {t.view};
    assert Active(after, last) == s.active - {t.view};
    assert memo[KeyOf(t) := t].Keys == memo.Keys + {KeyOf(t)};
    assert ViewsOf(memo.Keys + {KeyOf(t)}) == ViewsOf(memo.Keys) + {t.view};
    assert s.validated == ViewsOf(memo[KeyOf(t) := t].Keys) + (s.active - {t.view});
  }

  // ----- the moves

  ghost predicate Progress(
    task: Task, trail: seq<Step>, memo: map<Key, Tree>, s: State,
    trail': seq<Step>, memo': map<Key, Tree>, s': State)
    requires |trail| == |s.stack| && |trail'| == |s'.stack|
  {
    || Unentered(task.graph, trail', memo') < Unentered(task.graph, trail, memo)
    || (&& Unentered(task.graph, trail', memo') == Unentered(task.graph, trail, memo)
        && StackRemaining(task.graph, trail') < StackRemaining(task.graph, trail))
  }

  function Remaining(g: Graph, s: Step): nat {
    1 + if |s.done| <= |Refs(g, s.view)| then |Refs(g, s.view)| - |s.done| else 0
  }

  function StackRemaining(g: Graph, trail: seq<Step>): nat {
    if trail == [] then 0
    else StackRemaining(g, trail[..|trail| - 1]) + Remaining(g, trail[|trail| - 1])
  }

  lemma {:induction false} AdvanceProgresses(g: Graph, trail: seq<Step>, memo: map<Key, Tree>, c: Tree)
    requires trail != [] && HasNext(g, Top(trail))
    ensures var after := WithTop(trail, Top(trail).(done := Top(trail).done + [c]));
      Unentered(g, after, memo) == Unentered(g, trail, memo) && StackRemaining(g, after) < StackRemaining(g, trail)
  {
    var step := Top(trail).(done := Top(trail).done + [c]);
    AdvancingEntersNothing(g, trail, memo, step);
    assert WithTop(trail, step)[..|trail| - 1] == trail[..|trail| - 1];
  }

  lemma {:induction false} LeaveProgresses(g: Graph, trail: seq<Step>, memo: map<Key, Tree>)
    requires |trail| > 1 && HasNext(g, trail[|trail| - 2])
    ensures var t := Completed(Top(trail));
      var rest := trail[..|trail| - 1];
      var after := WithTop(rest, Top(rest).(done := Top(rest).done + [t]));
      && Unentered(g, after, memo[KeyOf(t) := t]) == Unentered(g, trail, memo)
      && StackRemaining(g, after) < StackRemaining(g, trail)
  {
    var t := Completed(Top(trail));
    LeavingEntersNothing(g, trail, memo);
    AdvanceProgresses(g, trail[..|trail| - 1], memo[KeyOf(t) := t], t);
  }

  lemma {:induction false} LoopFacts(task: Task, trail: seq<Step>, memo: map<Key, Tree>, s: State)
    requires LoopOk(task, trail, memo, s)
    ensures |trail| == |s.stack|
    ensures s.active == Active(trail, |trail|) && s.resolved.Keys == memo.Keys
    ensures var f := TopFrame(s.stack);
      && StepKey(Top(trail)) == Key(f.view, f.localOnly) && f.view in task.graph
      && f.pending.None? && f.depth == DepthBefore(task.graph, trail, |trail|)
      && (HasNext(task.graph, Top(trail)) <==> f.next < |Refs(task.graph, f.view)|)
      && (HasNext(task.graph, Top(trail)) ==>
            f.next == |Top(trail).done| && NextRef(task.graph, Top(trail)) == Refs(task.graph, f.view)[f.next])
    ensures forall v | v in s.validated :: v in task.graph && ValidNode(task.graph, v)
    ensures forall k | k in s.resolved :: k.view in s.validated
    ensures s.work <= task.bounds.work
  {
    hide ValidNode, KidsUnfold, MemoOk, TopologyOf;
    assert FrameOk(task, trail, |trail| - 1, TopFrame(s.stack), false);
    assert StepOk(task.graph, Top(trail));
  }

  /** What the stack has seen, with what is known of the next child of the top frame. */
  lemma {:induction false} NextSeen(task: Task, trail: seq<Step>, memo: map<Key, Tree>, s: State)
    returns (part: Tree, c: Tree)
    requires LoopOk(task, trail, memo, s) && HasNext(task.graph, Top(trail))
    ensures PartOf(task.graph, task.root, part)
    ensures var key := ChildKey(NextRef(task.graph, Top(trail)));
      && c == (if key in memo then memo[key] else Tree(key.view, key.local, []))
      && key.view in Views(part)
      && (key.view in task.graph && key.view !in s.validated ==>
            s.work + task.graph[key.view].work <= WorkOf(task.graph, Views(part)))
    ensures TopFrame(s.stack).depth + Span(task.graph, c) <= Span(task.graph, part)
    ensures |TopFrame(s.stack).paths| + Leaves(task.graph, task.keepEmpty, c)
      <= Leaves(task.graph, task.keepEmpty, part)
  {
    hide FrameOk, StepOk, Waits, Walked, DoneWithin, ValidNode, Span, Leaves, Keys, Part, Unfolds, HasLocalLeaf;
    LoopFacts(task, trail, memo, s);
    var g, key := task.graph, ChildKey(NextRef(task.graph, Top(trail)));
    SearchHasSteps(g, task.root, trail, memo, true);
    c := if key in memo then memo[key] else Tree(key.view, key.local, []);
    if key in memo {
      UnfoldingIsPart(g, c);
    } else {
      UnopenedPart(g, task.keepEmpty, key);
    }
    part := NextPart(g, task.keepEmpty, task.root, trail, c);
    NestHasAll(g, task.root, trail, memo, true, [c]);
    SeenWork(g, s.validated, key.view, Views(part), s.work);
    FramePaths(task, trail, |trail| - 1, TopFrame(s.stack), false);
  }

  lemma {:induction false} FramePaths(task: Task, trail: seq<Step>, i: nat, frame: Frame, waiting: bool)
    requires i < |trail| && FrameOk(task, trail, i, frame, waiting)
    ensures |frame.paths| == |OwnPaths(task.graph, task.keepEmpty, trail[i].view)|
      + KidsLeaves(task.graph, task.keepEmpty, trail[i].done)
    ensures frame.depth == DepthBefore(task.graph, trail, i + 1)
  {
    KidsPathPerLeaf(task.graph, task.keepEmpty, trail[i].done);
  }

  lemma {:induction false} NextRefusal(
    task: Task, trail: seq<Step>, memo: map<Key, Tree>, s: State, why: Refusal)
    requires LoopOk(task, trail, memo, s) && HasNext(task.graph, Top(trail))
    requires var key := ChildKey(NextRef(task.graph, Top(trail)));
      var frame := TopFrame(s.stack);
      match why
      case ActiveCycle => key.view in s.active
      case InvalidNode => !ValidNode(task.graph, key.view)
      case WorkLimit =>
        && key.view in task.graph && key.view !in s.validated
        && s.work + task.graph[key.view].work > task.bounds.work
      case DepthLimit =>
        if key in s.resolved then frame.depth + s.resolved[key].span > task.bounds.depth
        else frame.depth + OverlayIncrement(task.graph, key.view) > task.bounds.depth
      case LeafLimit =>
        if key in s.resolved then |frame.paths| + |s.resolved[key].paths| > task.bounds.leaves
        else |OwnPaths(task.graph, task.keepEmpty, key.view)| > task.bounds.leaves
    ensures AllJustified(task, Refused(why))
  {
    hide ValidNode, Walk, MemoOk, FramesOk, TrailOk, Part, Keys, Unfolds, Span, Leaves, WorkOf;
    LoopFacts(task, trail, memo, s);
    var key := ChildKey(NextRef(task.graph, Top(trail)));
    var part, c := NextSeen(task, trail, memo, s);
    if why.ActiveCycle? {
      ActiveRefuses(task, trail, memo, part);
    } else {
      UnopenedPart(task.graph, task.keepEmpty, key);
      PathPerLeaf(task.graph, task.keepEmpty, c);
      ShownRefuses(task, why, part);
    }
  }

  /** Meeting an active view is a cycle of references, and stops the walk of any unfolding. */
  lemma {:induction false} ActiveRefuses(task: Task, trail: seq<Step>, memo: map<Key, Tree>, part: Tree)
    requires SearchOk(task.graph, task.root, trail, memo, true) && HasNext(task.graph, Top(trail))
    requires NextRef(task.graph, Top(trail)).source in Active(trail, |trail|)
    requires PartOf(task.graph, task.root, part)
    ensures AllJustified(task, Refused(ActiveCycle))
  {
    hide Walk, Part, StepOk, Waits, Walked, DoneWithin, MemoOk, NoReferenceCycle, Unfolds;
    SearchHasSteps(task.graph, task.root, trail, memo, true);
    ActiveNextIsCycle(task.graph, task.root, trail);
    assert Shown(task, ActiveCycle, part);
    forall t | UnfoldingOf(task.graph, Key(task.root, false), t) ensures Walk(t, {}, {}, true).None? {
      ActiveChildStops(task.graph, task.root, trail, memo, true, t);
    }
  }

  lemma {:induction false} RecallMove(task: Task, trail: seq<Step>, memo: map<Key, Tree>, s: State, merged: Frame)
    returns (trail': seq<Step>)
    requires LoopOk(task, trail, memo, s) && HasNext(task.graph, Top(trail))
    requires var f := TopFrame(s.stack);
      var key := ChildKey(NextRef(task.graph, Top(trail)));
      && key in s.resolved && key.view !in s.active
      && MergeRefusal(task, f, s.resolved[key]).None?
      && merged == Merged(task, f, f.next, s.resolved[key]).(next := f.next + 1)
    ensures var s' := s.(stack := s.stack[..|s.stack| - 1] + [merged]);
      && |trail| == |s.stack| && |trail'| == |s'.stack|
      && LoopOk(task, trail', memo, s')
      && Progress(task, trail, memo, s, trail', memo, s')
  {
    hide FrameOk, SearchOk, BooksOk, Unentered, StackRemaining, ResolvedAs, MergeRefusal, Merged, ValidNode;
    LoopFacts(task, trail, memo, s);
    var last := |trail| - 1;
    var key := ChildKey(NextRef(task.graph, Top(trail)));
    var step := Top(trail).(done := Top(trail).done + [memo[key]]);
    trail' := WithTop(trail, step);
    SearchRecalls(task.graph, task.root, trail, memo, true);
    MergeKeepsFrame(task, trail, trail', last, TopFrame(s.stack), false, memo[key], s.resolved[key]);
    FramesGrow(task, trail, s.stack, trail', s.stack[..last] + [merged]);
    AdvancingKeepsBooks(task, trail, memo, s, step, s.(stack := s.stack[..last] + [merged]));
    AdvanceProgresses(task.graph, trail, memo, memo[key]);
  }

  lemma {:induction false} EnterMove(task: Task, trail: seq<Step>, memo: map<Key, Tree>, s: State, s': State)
    returns (trail': seq<Step>)
    requires LoopOk(task, trail, memo, s) && HasNext(task.graph, Top(trail))
    requires var f := TopFrame(s.stack);
      var key := ChildKey(NextRef(task.graph, Top(trail)));
      && key !in s.resolved && key.view !in s.active
      && key.view in task.graph && ValidNode(task.graph, key.view)
      && s'.stack == s.stack[..|s.stack| - 1] + [f.(next := f.next + 1, pending := Some(f.next)),
                                                 Opened(task, key, f.depth)]
      && Opened(task, key, f.depth).depth <= task.bounds.depth
      && |Opened(task, key, f.depth).paths| <= task.bounds.leaves
      && s'.resolved == s.resolved
      && s'.active == s.active + {key.view} && s'.validated == s.validated + {key.view}
      && s'.work == s.work + (if key.view in s.validated then 0 else task.graph[key.view].work)
      && s'.work <= task.bounds.work
    ensures |trail| == |s.stack| && |trail'| == |s'.stack|
    ensures LoopOk(task, trail', memo, s') && Progress(task, trail, memo, s, trail', memo, s')
  {
    hide SearchOk, BooksOk, ValidNode, Unentered, StackRemaining;
    LoopFacts(task, trail, memo, s);
    var f := TopFrame(s.stack);
    var key := ChildKey(NextRef(task.graph, Top(trail)));
    var step := Step(key.view, key.local, [], memo.Keys);
    trail' := trail + [step];
    SearchEnters(task.graph, task.root, trail, memo, true);
    EnterKeepsFrames(task, trail, s.stack, step, f.depth);
    EnteringCharges(task, trail, memo, s, step, s');
    EnteringIsNew(task.graph, trail, memo, step);
  }

  function Opened(task: Task, key: Key, parentDepth: nat): Frame {
    var increment := OverlayIncrement(task.graph, key.view);
    Frame(key.view, key.local, if key.local then |Refs(task.graph, key.view)| else 0, None,
      OwnPaths(task.graph, task.keepEmpty, key.view), increment, parentDepth + increment)
  }

  lemma {:induction false} EnterKeepsFrames(
    task: Task, trail: seq<Step>, stack: seq<Frame>, step: Step, depth: nat)
    requires FramesOk(task, trail, stack) && |stack| > 0 && !Top(trail).local && step.done == []
    requires depth == TopFrame(stack).depth
    requires var entered := Opened(task, StepKey(step), depth);
      entered.depth <= task.bounds.depth && |entered.paths| <= task.bounds.leaves
    ensures var f := TopFrame(stack);
      FramesOk(task, trail + [step],
        stack[..|stack| - 1] + [f.(next := f.next + 1, pending := Some(f.next)),
                                Opened(task, StepKey(step), depth)])
  {
    var longer := trail + [step];
    var f := TopFrame(stack);
    var waiting := f.(next := f.next + 1, pending := Some(f.next));
    var frames := stack[..|stack| - 1] + [waiting, Opened(task, StepKey(step), depth)];
    FreshFrame(task, trail, f, step);
    assert FrameOk(task, trail, |trail| - 1, waiting, true) by {
      assert FrameOk(task, trail, |trail| - 1, f, false);
    }
    hide FrameOk;
    forall i | 0 <= i < |trail| ensures FrameOk(task, longer, i, frames[i], true) {
      FrameOkAlike(task, trail, longer, i, frames[i], true);
    }
  }

  lemma {:induction false} FreshFrame(task: Task, trail: seq<Step>, parent: Frame, step: Step)
    requires trail != [] && FrameOk(task, trail, |trail| - 1, parent, false) && step.done == []
    requires var entered := Opened(task, StepKey(step), parent.depth);
      entered.depth <= task.bounds.depth && |entered.paths| <= task.bounds.leaves
    ensures FrameOk(task, trail + [step], |trail|, Opened(task, StepKey(step), parent.depth), false)
  {
    DepthByViews(task.graph, trail, trail + [step], |trail|);
  }

  lemma {:induction false} FrameResult(task: Task, trail: seq<Step>, i: nat, frame: Frame)
    requires i < |trail| && FrameOk(task, trail, i, frame, false)
    ensures ResolvedAs(task, Completed(trail[i]), Topology(frame.paths, frame.span))
    ensures DepthBefore(task.graph, trail, i) + frame.span <= task.bounds.depth
    ensures |frame.paths| <= task.bounds.leaves
  {
  }

  /** What the parent of the top frame becomes when the top frame is done. */
  lemma {:induction false} LeaveMove(
    task: Task, trail: seq<Step>, memo: map<Key, Tree>, s: State, s': State)
    returns (trail': seq<Step>, memo': map<Key, Tree>)
    requires LoopOk(task, trail, memo, s) && !HasNext(task.graph, Top(trail)) && |s.stack| > 1
    requires var f, parent := TopFrame(s.stack), s.stack[|s.stack| - 2];
      var child := Topology(f.paths, f.span);
      && parent.pending.Some? && MergeRefusal(task, parent, child).None?
      && s'.stack == s.stack[..|s.stack| - 2] + [Merged(task, parent, parent.pending.value, child)]
      && s'.resolved == s.resolved[Key(f.view, f.localOnly) := child]
      && s'.active == s.active - {f.view} && s'.validated == s.validated && s'.work == s.work
    ensures |trail| == |s.stack| && |trail'| == |s'.stack|
    ensures LoopOk(task, trail', memo', s') && Progress(task, trail, memo, s, trail', memo', s')
  {
    hide FrameOk, SearchOk, BooksOk, Unentered, StackRemaining, MemoOk, ResolvedAs, Waits, Walked, StepOk;
    LoopFacts(task, trail, memo, s);
    var last := |trail| - 1;
    var t := Completed(Top(trail));
    var rest := trail[..last];
    var f, parent := TopFrame(s.stack), s.stack[last - 1];
    SearchLeaves(task.graph, task.root, trail, memo, true);
    FrameResult(task, trail, last, f);
    ParentFrame(task, trail, s.stack);
    var step := Top(rest).(done := Top(rest).done + [t]);
    trail', memo' := WithTop(rest, step), memo[KeyOf(t) := t];
    FrameOkAlike(task, trail, rest, last - 1, parent, true);
    MergeKeepsFrame(task, rest, trail', last - 1, parent, true, t, Topology(f.paths, f.span));
    FramesGrow(task, trail, s.stack, trail', s'.stack);
    TopIsNew(task.graph, task.root, trail, memo);
    LeavingKeepsBooks(task, trail, memo, s, step, s');
    LeaveProgresses(task.graph, trail, memo);
  }

  lemma {:induction false} ParentFrame(task: Task, trail: seq<Step>, stack: seq<Frame>)
    requires FramesOk(task, trail, stack) && |stack| > 1 && !trail[|trail| - 2].local
    ensures var parent, done := stack[|stack| - 2], trail[|trail| - 2].done;
      parent.pending == Some(|done|) && parent.next == |done| + 1
  {
    assert FrameOk(task, trail, |trail| - 2, stack[|stack| - 2], true);
  }

  lemma {:induction false} TopIsNew(g: Graph, root: ViewId, trail: seq<Step>, memo: map<Key, Tree>)
    requires SearchOk(g, root, trail, memo, true) && |trail| > 1
    ensures Top(trail).view !in Active(trail, |trail| - 1)
  {
    assert Waits(g, trail, |trail| - 2);
  }

  // ----- the root

  lemma {:induction false} RootStarts(task: Task, s: State)
    requires task.root in task.graph && ValidNode(task.graph, task.root)
    requires task.graph[task.root].work <= task.bounds.work
    requires var first := Opened(task, Key(task.root, false), 0);
      && first.depth <= task.bounds.depth && |first.paths| <= task.bounds.leaves
      && s == State([first], map[], {task.root}, {task.root}, task.graph[task.root].work)
    ensures LoopOk(task, [Step(task.root, false, [], {})], map[], s)
  {
    var trail := [Step(task.root, false, [], {})];
    SearchStarts(task.graph, task.root, true);
    WorkOfAdd(task.graph, {}, task.root);
    assert {} + {task.root} == {task.root};
    assert Active(trail, 1) == {task.root};
    assert DepthBefore(task.graph, trail, 0) == 0;
    assert FrameOk(task, trail, 0, s.stack[0], false);
  }

  lemma {:induction false} RootRefusal(task: Task, why: Refusal)
    requires task.root in task.graph
    requires match why
      case WorkLimit => task.graph[task.root].work > task.bounds.work
      case InvalidNode => !ValidNode(task.graph, task.root)
      case DepthLimit => OverlayIncrement(task.graph, task.root) > task.bounds.depth
      case LeafLimit => |OwnPaths(task.graph, task.keepEmpty, task.root)| > task.bounds.leaves
      case ActiveCycle => false
    ensures AllJustified(task, Refused(why))
  {
    hide ValidNode;
    var part := Tree(task.root, false, []);
    UnopenedPart(task.graph, task.keepEmpty, Key(task.root, false));
    RootIsKey(part);
    assert {} <= Views(part) && WorkOf(task.graph, {}) == 0;
    SeenWork(task.graph, {}, task.root, Views(part), 0);
    ShownRefuses(task, why, part);
  }

  lemma {:induction false} MergeRefused(
    task: Task, trail: seq<Step>, memo: map<Key, Tree>, s: State, why: Refusal)
    requires LoopOk(task, trail, memo, s) && !HasNext(task.graph, Top(trail)) && |s.stack| > 1
    requires var f, parent := TopFrame(s.stack), s.stack[|s.stack| - 2];
      MergeRefusal(task, parent, Topology(f.paths, f.span)) == Some(why)
    ensures AllJustified(task, Refused(why))
  {
    hide FrameOk, StepOk, Waits, Walked, DoneWithin, BooksOk, Walk, Part, Unfolds, Keys, Span, HasLocalLeaf;
    LoopFacts(task, trail, memo, s);
    var last := |trail| - 1;
    var c, rest := Completed(Top(trail)), trail[..last];
    CompletedUnfolds(task.graph, task.root, trail, memo);
    SearchLeaves(task.graph, task.root, trail, memo, true);
    SearchHasSteps(task.graph, task.root, trail, memo, true);
    UnfoldingIsPart(task.graph, c);
    FrameResult(task, trail, last, TopFrame(s.stack));
    PathPerLeaf(task.graph, task.keepEmpty, c);
    FramePaths(task, trail, last - 1, s.stack[last - 1], true);
    PrefixBefore(task.graph, task.keepEmpty, trail, last);
    var part := NextPart(task.graph, task.keepEmpty, task.root, rest, c);
    ShownRefuses(task, why, part);
  }

  lemma {:induction false} PrefixBefore(g: Graph, keepEmpty: bool, trail: seq<Step>, n: nat)
    requires 0 < n <= |trail|
    ensures DepthBefore(g, trail[..n], n) == DepthBefore(g, trail, n)
    ensures LeavesBefore(g, keepEmpty, trail[..n], n) >= KidsLeaves(g, keepEmpty, trail[n - 1].done)
  {
    DepthByViews(g, trail[..n], trail, n);
  }

  lemma {:induction false} CompletedUnfolds(g: Graph, root: ViewId, trail: seq<Step>, memo: map<Key, Tree>)
    requires SearchOk(g, root, trail, memo, true) && !HasNext(g, Top(trail))
    ensures UnfoldingOf(g, StepKey(Top(trail)), Completed(Top(trail)))
  {
    TopCompletes(g, root, trail, memo, true);
  }

  lemma {:induction false} RootFinishes(task: Task, trail: seq<Step>, memo: map<Key, Tree>, s: State)
    requires LoopOk(task, trail, memo, s) && !HasNext(task.graph, Top(trail)) && |s.stack| == 1
    ensures HasUnfolding(task.graph, task.root)
    ensures |PathSet(TopFrame(s.stack).paths)| == |TopFrame(s.stack).paths|
    ensures AllJustified(task, Enumerated(PathSet(TopFrame(s.stack).paths), s.work))
  {
    hide FrameOk, ValidNode, Walk, Unfolds, Paths, Span, MemoOk, TrailOk, WorkOf, Keys;
    LoopFacts(task, trail, memo, s);
    var t := Completed(Top(trail));
    var f := TopFrame(s.stack);
    SearchLeaves(task.graph, task.root, trail, memo, true);
    FrameResult(task, trail, 0, f);
    assert DepthBefore(task.graph, trail, 0) == 0;
    RootValidatesAll(task, trail, memo, s);
    PathsArePrefixFree(task.graph, task.keepEmpty, t);
    PrefixFreeIsInjective(f.paths);
    PathPerLeaf(task.graph, task.keepEmpty, t);
    assert Justified(task, t, Enumerated(PathSet(f.paths), s.work));
    forall u | UnfoldingOf(task.graph, Key(task.root, false), u)
      ensures Justified(task, u, Enumerated(PathSet(f.paths), s.work))
    {
      UnfoldingIsUnique(task.graph, u, t);
    }
  }

  lemma {:induction false} RootValidatesAll(task: Task, trail: seq<Step>, memo: map<Key, Tree>, s: State)
    requires LoopOk(task, trail, memo, s) && !HasNext(task.graph, Top(trail)) && |s.stack| == 1
    ensures var t := Completed(Top(trail));
      && s.validated == Views(t) && AllValidNodes(task.graph, t)
      && s.work == WorkOf(task.graph, Views(t)) <= task.bounds.work
  {
    hide FrameOk, ValidNode, Unfolds, MemoOk, TrailOk;
    LoopFacts(task, trail, memo, s);
    var t := Completed(Top(trail));
    SearchLeaves(task.graph, task.root, trail, memo, true);
    WalkWithin(t, {}, {}, true);
    assert Active(trail, 1) == {task.root};
    assert memo[KeyOf(t) := t].Keys == memo.Keys + {KeyOf(t)};
    assert ViewsOf(memo.Keys + {KeyOf(t)}) == ViewsOf(memo.Keys) + {t.view};
  }

  // ----- the code

  /** The path set; there is none when a path occurs twice. */
  method CollectPaths(paths: seq<Path>) returns (expected: Option<set<Path>>)
    ensures expected.Some? <==> |PathSet(paths)| == |paths|
    ensures expected.Some? ==> expected.value == PathSet(paths)
  {
    var collected: set<Path> := {};
    var i := 0;
    while i < |paths|
      invariant 0 <= i <= |paths|
      invariant collected == PathSet(paths[..i]) && |collected| == i
    {
      PathSetGrows(paths, i);
      if paths[i] in collected {
        RepeatedPathShrinks(paths, i);
        return None;
      }
      collected := collected + {paths[i]};
      i := i + 1;
    }
    assert paths[..i] == paths;
    return Some(collected);
  }

  lemma {:induction false} PathSetGrows(paths: seq<Path>, i: nat)
    requires i < |paths|
    ensures PathSet(paths[..i + 1]) == PathSet(paths[..i]) + {paths[i]}
  {
    var more := paths[..i + 1];
    assert more[i] == paths[i];
    assert forall k | 0 <= k < i :: more[k] == paths[..i][k];
  }

  lemma {:induction false} PathSetIsSmall(paths: seq<Path>)
    ensures |PathSet(paths)| <= |paths|
    decreases |paths|
  {
    if paths != [] {
      PathSetIsSmall(paths[..|paths| - 1]);
      PathSetGrows(paths, |paths| - 1);
      assert paths[..|paths|] == paths;
    }
  }

  lemma {:induction false} RepeatedPathShrinks(paths: seq<Path>, i: nat)
    requires i < |paths| && paths[i] in PathSet(paths[..i])
    ensures |PathSet(paths)| < |paths|
  {
    var rest := paths[..i] + paths[i + 1..];
    assert PathSet(paths) <= PathSet(rest) by {
      forall k | 0 <= k < |paths| ensures paths[k] in PathSet(rest) {
        if k < i {
          assert rest[k] == paths[k];
        } else if k > i {
          assert rest[k - 1] == paths[k];
        } else {
          var j :| 0 <= j < i && paths[..i][j] == paths[i];
          assert rest[j] == paths[i];
        }
      }
    }
    SubsetIsSmall(PathSet(paths), PathSet(rest));
    PathSetIsSmall(rest);
  }

  lemma {:induction false} SubsetIsSmall(a: set<Path>, b: set<Path>)
    requires a <= b
    ensures |a| <= |b|
  {
    assert b == a + (b - a);
  }

  /** Validates a view on its first visit and charges its work. */
  method VisitNode(task: Task, v: ViewId, validated: set<ViewId>, work: nat)
    returns (refusal: Option<Refusal>, charged: nat)
    requires v in task.graph && work <= task.bounds.work
    ensures charged == work + if v in validated then 0 else task.graph[v].work
    ensures match refusal
      case None => charged <= task.bounds.work && (v in validated || ValidNode(task.graph, v))
      case Some(WorkLimit) => v !in validated && charged > task.bounds.work
      case Some(InvalidNode) => v !in validated && !ValidNode(task.graph, v)
      case Some(_) => false
  {
    refusal, charged := None, work;
    if v !in validated {
      charged := charged + task.graph[v].work;
      if charged > task.bounds.work {
        refusal := Some(WorkLimit);
      } else if !ValidNode(task.graph, v) {
        refusal := Some(InvalidNode);
      }
    }
  }

  /** Turns to the next child of the top frame: merges its known topology, or enters it. */
  method VisitChild(task: Task, s: State, ghost trail: seq<Step>, ghost memo: map<Key, Tree>)
    returns (refusal: Option<Refusal>, after: State, ghost trail': seq<Step>)
    requires LoopOk(task, trail, memo, s) && |trail| == |s.stack|
    requires TopFrame(s.stack).next < |Refs(task.graph, TopFrame(s.stack).view)|
    ensures refusal.Some? ==> AllJustified(task, Refused(refusal.value))
    ensures refusal.None? ==>
      && |trail'| == |after.stack|
      && LoopOk(task, trail', memo, after)
      && Progress(task, trail, memo, s, trail', memo, after)
  {
    hide LoopOk, ValidNode, AllJustified, Progress, OwnPaths, Merged;
    LoopFacts(task, trail, memo, s);
    ChildExists(task, trail, memo, s);
    refusal, after, trail' := None, s, trail;
    var frame := TopFrame(s.stack);
    var key := ChildKey(Refs(task.graph, frame.view)[frame.next]);
    if key.view in s.active {
      NextRefusal(task, trail, memo, s, ActiveCycle);
      refusal := Some(ActiveCycle);
      return;
    }
    var charged;
    refusal, charged := VisitNode(task, key.view, s.validated, s.work);
    if refusal.Some? {
      NextRefusal(task, trail, memo, s, refusal.value);
      return;
    }
    if key in s.resolved {
      refusal := MergeRefusal(task, frame, s.resolved[key]);
      if refusal.Some? {
        NextRefusal(task, trail, memo, s, refusal.value);
        return;
      }
      var merged := Merged(task, frame, frame.next, s.resolved[key]).(next := frame.next + 1);
      trail' := RecallMove(task, trail, memo, s, merged);
      after := s.(stack := s.stack[..|s.stack| - 1] + [merged]);
    } else {
      var entered := Opened(task, key, frame.depth);
      if entered.depth > task.bounds.depth {
        NextRefusal(task, trail, memo, s, DepthLimit);
        refusal := Some(DepthLimit);
      } else if |entered.paths| > task.bounds.leaves {
        NextRefusal(task, trail, memo, s, LeafLimit);
        refusal := Some(LeafLimit);
      } else {
        after := State(
          s.stack[..|s.stack| - 1] + [frame.(next := frame.next + 1, pending := Some(frame.next)), entered],
          s.resolved, s.active + {key.view}, s.validated + {key.view}, charged);
        trail' := EnterMove(task, trail, memo, s, after);
      }
    }
  }

  lemma {:induction false} ChildExists(task: Task, trail: seq<Step>, memo: map<Key, Tree>, s: State)
    requires LoopOk(task, trail, memo, s) && HasNext(task.graph, Top(trail))
    ensures NextRef(task.graph, Top(trail)).source in task.graph
  {
    var v := Top(trail).view;
    LoopFacts(task, trail, memo, s);
    assert v in Active(trail, |trail|);
    assert ValidNode(task.graph, v);
  }

  /** Closes the top frame and merges it into its parent. */
  method Finish(task: Task, s: State, ghost trail: seq<Step>, ghost memo: map<Key, Tree>)
    returns (refusal: Option<Refusal>, after: State, ghost trail': seq<Step>, ghost memo': map<Key, Tree>)
    requires LoopOk(task, trail, memo, s) && |trail| == |s.stack| > 1
    requires TopFrame(s.stack).next >= |Refs(task.graph, TopFrame(s.stack).view)|
    ensures refusal.Some? ==> AllJustified(task, Refused(refusal.value))
    ensures refusal.None? ==>
      && |trail'| == |after.stack|
      && LoopOk(task, trail', memo', after)
      && Progress(task, trail, memo, s, trail', memo', after)
  {
    LoopFacts(task, trail, memo, s);
    ParentWaits(task, trail, memo, s);
    hide LoopOk, AllJustified, Progress;
    after, trail', memo' := s, trail, memo;
    var frame, parent := TopFrame(s.stack), s.stack[|s.stack| - 2];
    var child := Topology(frame.paths, frame.span);
    refusal := MergeRefusal(task, parent, child);
    if refusal.Some? {
      MergeRefused(task, trail, memo, s, refusal.value);
    } else {
      after := s.(stack := s.stack[..|s.stack| - 2] + [Merged(task, parent, parent.pending.value, child)],
                  resolved := s.resolved[Key(frame.view, frame.localOnly) := child],
                  active := s.active - {frame.view});
      trail', memo' := LeaveMove(task, trail, memo, s, after);
    }
  }

  lemma {:induction false} ParentWaits(task: Task, trail: seq<Step>, memo: map<Key, Tree>, s: State)
    requires LoopOk(task, trail, memo, s) && |s.stack| > 1
    ensures s.stack[|s.stack| - 2].pending.Some?
  {
    assert FrameOk(task, trail, |trail| - 2, s.stack[|trail| - 2], true);
  }

  method EnumerateLeafPaths(g: Graph, root: ViewId, keepEmpty: bool, bounds: Bounds)
    returns (result: Enumeration)
    requires root in g
    ensures result.Enumerated? ==> HasUnfolding(g, root)
    ensures AllJustified(Task(g, root, keepEmpty, bounds), result)
  {
    var task := Task(g, root, keepEmpty, bounds);
    var first := Opened(task, Key(root, false), 0);
    var refusal, work := VisitNode(task, root, {}, 0);
    if refusal.None? && first.depth > bounds.depth {
      refusal := Some(DepthLimit);
    } else if refusal.None? && |first.paths| > bounds.leaves {
      refusal := Some(LeafLimit);
    }
    if refusal.Some? {
      RootRefusal(task, refusal.value);
      return Refused(refusal.value);
    }
    var s := State([first], map[], {root}, {root}, work);
    ghost var trail := [Step(root, false, [], {})];
    ghost var memo: map<Key, Tree> := map[];
    RootStarts(task, s);
    hide LoopOk, AllJustified, HasUnfolding, Unentered, StackRemaining;
    while true
      invariant |trail| == |s.stack|
      invariant LoopOk(task, trail, memo, s)
      decreases Unentered(g, trail, memo), StackRemaining(g, trail)
    {
      LoopFacts(task, trail, memo, s);
      var frame := TopFrame(s.stack);
      if frame.next < |Refs(g, frame.view)| {
        refusal, s, trail := VisitChild(task, s, trail, memo);
        if refusal.Some? {
          return Refused(refusal.value);
        }
      } else if |s.stack| > 1 {
        refusal, s, trail, memo := Finish(task, s, trail, memo);
        if refusal.Some? {
          return Refused(refusal.value);
        }
      } else {
        RootFinishes(task, trail, memo, s);
        var expected := CollectPaths(frame.paths);
        return Enumerated(expected.value, s.work);
      }
    }
  }
}
