/**
 One-shot compilers that share retained role maps, as a system of atomic steps.

 A step is one compare-exchange, one critical section or one acquisition of a lock, so
 calls of different threads interleave at every point where the code lets them.  Every
 compiler serves at most one compile call, because only one call can move it from idle
 to running; calls that lose that race change nothing and are not steps.
 */
module CompilerSteps {
  import opened Wrappers
  import opened BatchOutput

  /** The role maps that survive a compilation. */
  datatype Roles = Roles(subroles: map<string, seq<string>>, inverses: map<string, string>)

  const NO_ROLES: Roles := Roles(map[], map[])

  /**
   The compile call of one compiler: what it was asked, and what its ontology makes of
   the role maps it starts from.
   */
  datatype Job = Job(
    batched: bool, retained: bool, assertedOnly: bool, bound: nat,
    update: Roles -> Roles, edges: Roles -> seq<Edge>)

  predicate Wants(job: Job) {
    job.retained && !job.assertedOnly
  }

  datatype State = Idle | Running | Finished | Cancelled | Failed

  /** How far the compile call has come. */
  datatype Call =
    | NotStarted
    | Begun
    | Claimed
    | Built(stream: Stream, next: Option<Roles>)
    | OutputLocked(stream: Stream, next: Option<Roles>)
    | RolesLocked(stream: Stream, next: Option<Roles>)
    | Moved(stream: Stream, next: Option<Roles>)
    | Placed(next: Option<Roles>)
    | Ending
    | Leaving
    | Returned
    | Abandoned

  /** Who holds the lock of the batch output between steps. */
  datatype Lock = Free | ByCall | ByClose

  /**
   The fields of a compiler, and its history: the commits before it read the roles, the
   roles it read, the edges it issued, the batches it delivered, whether it ever moved
   from running to finished, and whether a cancel ever succeeded.
   */
  datatype Compiler = Compiler(
    state: State, call: Call, lock: Lock, output: Output, drain: Drain,
    seen: Option<nat>, prior: Roles, issued: seq<Edge>, delivered: seq<seq<Edge>>,
    moved: bool, cancelTrue: bool)

  const NEW_COMPILER: Compiler :=
    Compiler(Idle, NotStarted, Free, ABSENT, NoDrain, None, NO_ROLES, [], [], false, false)

  /**
   What the compilers share: the maps, their claim and their lock; and in which order
   compilers moved to finished with new roles, and in which order they wrote them.
   */
  datatype Shared = Shared(
    roles: Roles, claim: Option<nat>, roleLock: Option<nat>, committed: seq<nat>, written: seq<nat>)

  datatype World = World(cs: seq<Compiler>, shared: Shared)

  datatype Outcome = Outcome(c: Compiler, s: Shared)

  datatype Move =
    | Begin | Abandon | Claim | RefuseClaim | Build | FailCall | LockOutput | LockRoles
    | Finish | RefuseFinish | Place | WriteRoles | ReleaseClaim | Return
    | Cancel | Close | StoreClosed
    | TakeStream | DropStream | BuildBatch | FailBatch | EndDrain

  datatype Action = Action(compiler: nat, move: Move)

  // ----- the steps of the compile call

  /** Failing moves only a running compiler to failed. */
  function FailState(state: State): State {
    if state.Running? then Failed else state
  }

  function BuiltCall(job: Job, prior: Roles): Call {
    Built(Stream(job.edges(prior), 0), if Wants(job) then Some(job.update(prior)) else None)
  }

  /** All locks the commit needs are held. */
  predicate CanFinish(job: Job, call: Call) {
    call.RolesLocked? || (if job.batched then call.OutputLocked? && call.next.None? else call.Built? && call.next.None?)
  }

  predicate HoldsRoles(call: Call) {
    call.RolesLocked? || ((call.Moved? || call.Placed?) && call.next.Some?)
  }

  function Unlocked(lock: Lock): Lock {
    if lock.ByCall? then Free else lock
  }

  function CallStep(i: nat, job: Job, c: Compiler, s: Shared, move: Move): Option<Outcome> {
    match move
    case Begin =>
      if c.state.Idle? then Some(Outcome(c.(state := Running, call := Begun), s)) else None
    case Abandon =>
      if c.call.Begun? then Some(Outcome(c.(call := Abandoned), s)) else None
    case Claim =>
      if !c.call.Begun? || (job.retained && s.claim.Some?) then None
      else Some(Outcome(c.(call := Claimed), if job.retained then s.(claim := Some(i)) else s))
    case RefuseClaim =>
      if c.call.Begun? && job.retained && s.claim.Some?
      then Some(Outcome(c.(state := FailState(c.state), call := Leaving), s)) else None
    case Build =>
      if !c.call.Claimed? || (job.retained && s.roleLock.Some?) then None else
        var prior := if job.retained then s.roles else NO_ROLES;
        Some(Outcome(c.(call := BuiltCall(job, prior), prior := prior, seen := Some(|s.committed|)), s))
    case FailCall =>
      if c.call.Claimed? || c.call.Built?
      then Some(Outcome(c.(state := FailState(c.state), call := Ending), s)) else None
    case LockOutput =>
      if c.call.Built? && job.batched && c.lock.Free?
      then Some(Outcome(c.(call := OutputLocked(c.call.stream, c.call.next), lock := ByCall), s)) else None
    case LockRoles =>
      if (if job.batched then c.call.OutputLocked? else c.call.Built?) && c.call.next.Some? && s.roleLock.None?
      then Some(Outcome(c.(call := RolesLocked(c.call.stream, c.call.next)), s.(roleLock := Some(i)))) else None
    case Finish =>
      if !CanFinish(job, c.call) || !c.state.Running? then None else
        Some(Outcome(
          c.(state := Finished, call := Moved(c.call.stream, c.call.next), moved := true),
          if c.call.next.Some? then s.(committed := s.committed + [i]) else s))
    case RefuseFinish =>
      if !CanFinish(job, c.call) || c.state.Running? then None else
        Some(Outcome(
          c.(call := Ending, lock := Unlocked(c.lock)),
          if HoldsRoles(c.call) then s.(roleLock := None) else s))
    case Place =>
      if !c.call.Moved? then None
      else if job.batched then
        Some(Outcome(c.(call := Placed(c.call.next), output := Installed(c.call.stream, job.bound),
                        issued := c.call.stream.edges), s))
      else Some(Outcome(c.(call := Placed(c.call.next)), s))
    case WriteRoles =>
      if !c.call.Placed? then None
      else if c.call.next.Some? then
        Some(Outcome(c.(call := Ending),
                     s.(roles := c.call.next.value, roleLock := None, written := s.written + [i])))
      else Some(Outcome(c.(call := Ending), s))
    case ReleaseClaim =>
      if c.call.Ending? then Some(Outcome(c.(call := Leaving), if job.retained then s.(claim := None) else s))
      else None
    case Return =>
      if c.call.Leaving? then Some(Outcome(c.(call := Returned, lock := Unlocked(c.lock)), s)) else None
    case _ => None
  }

  // ----- the steps of cancelling, closing and draining

  function OtherStep(c: Compiler, move: Move): Option<Compiler> {
    match move
    case Cancel =>
      if c.state.Idle? || c.state.Running? then Some(c.(state := Cancelled, cancelTrue := true)) else None
    case Close =>
      if !c.lock.Free? then None
      else if Open(c.output) then Some(c.(output := Closed(c.output), lock := ByClose))
      else Some(c)
    case StoreClosed =>
      if c.lock.ByClose? then Some(c.(state := Cancelled, lock := Free)) else None
    case TakeStream =>
      if c.lock.Free? && CanDrain(c.output)
      then Some(c.(output := Taken(c.output), drain := Holding(c.output.stream.value))) else None
    case DropStream =>
      if c.drain.Holding? then Some(c.(drain := Dropped)) else None
    case BuildBatch =>
      if c.drain.Holding? && c.drain.stream.Valid()
      then Some(c.(drain := Ready(c.drain.stream, Some(c.drain.stream.Next(c.output.bound))))) else None
    case FailBatch =>
      if c.drain.Holding? then Some(c.(drain := Ready(c.drain.stream, None))) else None
    case EndDrain =>
      if !c.lock.Free? || !c.drain.Ready? then None
      else if c.drain.batch.None? then
        Some(c.(output := Restored(c.output, c.drain.stream), drain := NoDrain))
      else
        Some(c.(output := Committed(c.output, c.drain.stream, c.drain.batch.value), drain := NoDrain,
                delivered := if c.output.cancelled then c.delivered else c.delivered + [c.drain.batch.value]))
    case _ => None
  }

  predicate IsCallMove(move: Move) {
    !(move.Cancel? || move.Close? || move.StoreClosed? || move.TakeStream? || move.DropStream? ||
      move.BuildBatch? || move.FailBatch? || move.EndDrain?)
  }

  function Step(i: nat, job: Job, c: Compiler, s: Shared, move: Move): Option<Outcome> {
    if IsCallMove(move) then CallStep(i, job, c, s, move) else
      var after :- OtherStep(c, move);
      Some(Outcome(after, s))
  }

  function Next(jobs: seq<Job>, w: World, a: Action): Option<World>
    requires |w.cs| == |jobs|
  {
    if a.compiler >= |jobs| then None else
      var o :- Step(a.compiler, jobs[a.compiler], w.cs[a.compiler], w.shared, a.move);
      Some(World(w.cs[a.compiler := o.c], o.s))
  }

  /** A run: no result when some action was not possible when its turn came. */
  function Run(jobs: seq<Job>, w: World, actions: seq<Action>): (after: Option<World>)
    requires |w.cs| == |jobs|
    ensures after.Some? ==> |after.value.cs| == |jobs|
    decreases |actions|
  {
    if actions == [] then Some(w) else
      var before :- Run(jobs, w, actions[..|actions| - 1]);
      Next(jobs, before, actions[|actions| - 1])
  }

  function Start(jobs: seq<Job>): World {
    World(seq(|jobs|, _ => NEW_COMPILER), Shared(NO_ROLES, None, None, [], []))
  }

  /** Batch sizes are checked before a compiler begins. */
  predicate ValidJobs(jobs: seq<Job>) {
    forall i | 0 <= i < |jobs| :: jobs[i].bound > 0
  }

  ghost predicate Reachable(jobs: seq<Job>, w: World) {
    exists actions :: Run(jobs, Start(jobs), actions) == Some(w)
  }

  /** The role maps after the given compilers, one after the other. */
  function Fold(jobs: seq<Job>, order: seq<nat>): Roles {
    if order == [] then NO_ROLES else
      var last := order[|order| - 1];
      var before := Fold(jobs, order[..|order| - 1]);
      if last < |jobs| then jobs[last].update(before) else before
  }

  // ----- the invariant

  predicate HoldsClaim(job: Job, call: Call) {
    job.retained && !(call.NotStarted? || call.Begun? || call.Leaving? || call.Returned? || call.Abandoned?)
  }

  predicate HasStream(call: Call) {
    call.Built? || call.OutputLocked? || call.RolesLocked? || call.Moved?
  }

  predicate BeforeFinish(call: Call) {
    call.Begun? || call.Claimed? || call.Built? || call.OutputLocked? || call.RolesLocked?
  }

  predicate JustFinished(call: Call) {
    call.Moved? || call.Placed?
  }

  predicate HasNext(call: Call) {
    HasStream(call) || call.Placed?
  }

  ghost predicate StateOk(c: Compiler) {
    && (c.call.NotStarted? ==> c.state.Idle? || c.state.Cancelled?)
    && (c.state.Idle? ==> c.call.NotStarted?)
    && (c.state.Running? ==> BeforeFinish(c.call) || c.call.Abandoned?)
    && (BeforeFinish(c.call) || c.call.Abandoned? ==> c.state.Running? || c.state.Cancelled?)
    && (JustFinished(c.call) ==> c.state.Finished?)
    && (c.moved ==> c.state.Finished? || c.state.Cancelled?)
    && (c.state.Finished? ==> c.moved)
    && (c.moved ==> JustFinished(c.call) || c.call.Ending? || c.call.Leaving? || c.call.Returned?)
    && (JustFinished(c.call) ==> c.moved)
    && (c.cancelTrue ==> c.state.Cancelled? && !c.moved)
    && (c.state.Cancelled? && (c.call.NotStarted? || c.call.Begun? || c.call.Abandoned?) ==> c.cancelTrue)
  }

  ghost predicate OutputOk(job: Job, c: Compiler) {
    && Accounted(c.output, c.drain, c.issued, c.delivered)
    && (c.output.prepared ==>
          && job.batched && c.moved && !c.call.Moved?
          && c.output.bound == job.bound && c.issued == job.edges(c.prior))
    && (c.output.cancelled ==> c.state.Cancelled? || c.lock.ByClose?)
    && (c.lock.ByClose? ==> c.output.prepared && c.output.cancelled)
    && (job.batched ==> (c.call.OutputLocked? || c.call.RolesLocked? || JustFinished(c.call) ==> c.lock.ByCall?))
    && (c.lock.ByCall? ==>
          c.call.OutputLocked? || c.call.RolesLocked? || JustFinished(c.call) || c.call.Ending? || c.call.Leaving?)
  }

  ghost predicate RolesOk(jobs: seq<Job>, i: nat, job: Job, c: Compiler, s: Shared) {
    && (HoldsClaim(job, c.call) <==> s.claim == Some(i))
    && (HoldsRoles(c.call) <==> s.roleLock == Some(i))
    && (HasNext(c.call) ==> c.seen.Some? && c.call.next == if Wants(job) then Some(job.update(c.prior)) else None)
    && (HasStream(c.call) ==> c.call.stream == Stream(job.edges(c.prior), 0))
    && (c.call.RolesLocked? ==> c.call.next.Some?)
    && (c.call.OutputLocked? ==> job.batched)
    && (BeforeFinish(c.call) && s.claim == Some(i) ==> |s.committed| == |s.written|)
    && (BeforeFinish(c.call) && s.claim == Some(i) && HasStream(c.call) ==>
          c.prior == s.roles && c.seen == Some(|s.committed|))
    && (JustFinished(c.call) && c.call.next.Some? ==>
          && |s.committed| == |s.written| + 1 && s.committed[|s.written|] == i
          && c.prior == s.roles)
    && ((c.call.Ending? || (JustFinished(c.call) && c.call.next.None?)) && s.claim == Some(i) ==>
          |s.committed| == |s.written|)
  }

  ghost predicate HistoryOk(jobs: seq<Job>, i: nat, job: Job, c: Compiler, s: Shared) {
    && (c.moved ==> c.seen.Some?)
    && (c.seen.Some? ==>
          && c.seen.value <= |s.committed|
          && c.prior == if job.retained then Fold(jobs, s.committed[..c.seen.value]) else NO_ROLES)
    && (c.moved && Wants(job) ==> c.seen.value < |s.committed| && s.committed[c.seen.value] == i)
    && (forall k | 0 <= k < |s.committed| :: s.committed[k] == i ==> c.seen == Some(k) && c.moved && Wants(job))
  }

  ghost predicate SharedOk(jobs: seq<Job>, s: Shared) {
    && s.written <= s.committed
    && s.roles == Fold(jobs, s.written)
    && (forall k | 0 <= k < |s.committed| :: s.committed[k] < |jobs|)
    && (s.claim.None? || s.roleLock.None? ==> s.committed == s.written)
    && |s.committed| <= |s.written| + 1
    && (s.claim.Some? ==> s.claim.value < |jobs|)
    && (s.roleLock.Some? ==> s.roleLock.value < |jobs|)
  }

  ghost predicate CompilerOk(jobs: seq<Job>, i: nat, job: Job, c: Compiler, s: Shared) {
    StateOk(c) && OutputOk(job, c) && RolesOk(jobs, i, job, c, s) && HistoryOk(jobs, i, job, c, s)
  }

  ghost predicate Inv(jobs: seq<Job>, w: World) {
    && |w.cs| == |jobs| && ValidJobs(jobs)
    && SharedOk(jobs, w.shared)
    && forall i | 0 <= i < |jobs| :: CompilerOk(jobs, i, jobs[i], w.cs[i], w.shared)
  }

  // ----- every step keeps the invariant

  lemma {:induction false} CallKeepsState(i: nat, job: Job, c: Compiler, s: Shared, move: Move)
    requires StateOk(c) && OutputOk(job, c) && CallStep(i, job, c, s, move).Some?
    ensures StateOk(CallStep(i, job, c, s, move).value.c)
  {
    hide Accounted, Concat;
  }

  lemma {:induction false} OtherKeepsState(job: Job, c: Compiler, move: Move)
    requires StateOk(c) && OutputOk(job, c) && OtherStep(c, move).Some?
    ensures StateOk(OtherStep(c, move).value)
  {
  }

  lemma {:induction false} AbsentIsIdle(c: Compiler)
    requires Accounted(c.output, c.drain, c.issued, c.delivered) && !c.output.prepared
    ensures c.output == ABSENT && c.drain.NoDrain? && c.delivered == []
  {
  }

  lemma {:induction false} CallKeepsOutput(jobs: seq<Job>, i: nat, job: Job, c: Compiler, s: Shared, move: Move)
    requires StateOk(c) && OutputOk(job, c) && RolesOk(jobs, i, job, c, s) && job.bound > 0
    requires CallStep(i, job, c, s, move).Some?
    ensures OutputOk(job, CallStep(i, job, c, s, move).value.c)
  {
    hide Accounted, Concat;
    if move.Place? {
      AbsentIsIdle(c);
      InstallAccounts(c.call.stream.edges, job.bound);
    }
  }

  lemma {:induction false} OtherKeepsOutput(job: Job, c: Compiler, move: Move)
    requires StateOk(c) && OutputOk(job, c) && OtherStep(c, move).Some?
    ensures OutputOk(job, OtherStep(c, move).value)
  {
    match move
    case Close => CloseAccounts(c.output, c.drain, c.issued, c.delivered);
    case TakeStream => TakeAccounts(c.output, c.drain, c.issued, c.delivered);
    case DropStream => DropAccounts(c.output, c.drain, c.issued, c.delivered);
    case BuildBatch =>
      PrepareAccounts(c.output, c.drain, c.issued, c.delivered, Some(c.drain.stream.Next(c.output.bound)));
    case FailBatch => PrepareAccounts(c.output, c.drain, c.issued, c.delivered, None);
    case EndDrain =>
      if c.drain.batch.None? {
        RestoreAccounts(c.output, c.drain, c.issued, c.delivered);
      } else {
        CommitAccounts(c.output, c.drain, c.issued, c.delivered);
      }
    case _ =>
  }

  /** What one compiler's step can do to the shared part. */
  ghost predicate SharedStep(i: nat, s: Shared, after: Shared) {
    && (after.claim == s.claim || (s.claim.None? && after.claim == Some(i)) ||
        (s.claim == Some(i) && after.claim.None?))
    && (after.roleLock == s.roleLock || (s.roleLock.None? && after.roleLock == Some(i)) ||
        (s.roleLock == Some(i) && after.roleLock.None?))
    && (after.committed == s.committed || (s.claim == Some(i) && after.committed == s.committed + [i]))
    && ((after.written == s.written && after.roles == s.roles) ||
        (s.claim == Some(i) && after.written == s.written + [i]))
  }

  lemma {:induction false} CallIsSharedStep(jobs: seq<Job>, i: nat, job: Job, c: Compiler, s: Shared, move: Move)
    requires RolesOk(jobs, i, job, c, s) && CallStep(i, job, c, s, move).Some?
    ensures SharedStep(i, s, CallStep(i, job, c, s, move).value.s)
  {
    hide Fold;
  }

  predicate EndsCall(move: Move) {
    move.Finish? || move.RefuseFinish? || move.Place? || move.WriteRoles? || move.ReleaseClaim? || move.Return?
  }

  lemma {:induction false} FirstMovesKeepRoles(jobs: seq<Job>, i: nat, job: Job, c: Compiler, s: Shared, move: Move)
    requires StateOk(c) && RolesOk(jobs, i, job, c, s) && SharedOk(jobs, s)
    requires CallStep(i, job, c, s, move).Some? && !EndsCall(move)
    ensures var o := CallStep(i, job, c, s, move).value; RolesOk(jobs, i, job, o.c, o.s)
  {
    hide Fold;
  }

  lemma {:induction false} LastMovesKeepRoles(jobs: seq<Job>, i: nat, job: Job, c: Compiler, s: Shared, move: Move)
    requires StateOk(c) && RolesOk(jobs, i, job, c, s) && SharedOk(jobs, s)
    requires CallStep(i, job, c, s, move).Some? && EndsCall(move)
    ensures var o := CallStep(i, job, c, s, move).value; RolesOk(jobs, i, job, o.c, o.s)
  {
    hide Fold;
  }

  lemma {:induction false} CallKeepsHistory(jobs: seq<Job>, i: nat, job: Job, c: Compiler, s: Shared, move: Move)
    requires StateOk(c) && RolesOk(jobs, i, job, c, s) && HistoryOk(jobs, i, job, c, s) && SharedOk(jobs, s)
    requires CallStep(i, job, c, s, move).Some?
    ensures var o := CallStep(i, job, c, s, move).value; HistoryOk(jobs, i, job, o.c, o.s)
  {
    hide Fold;
    if move.Build? {
      assert s.committed[..|s.committed|] == s.committed;
    }
    if move.Finish? && c.seen.Some? {
      assert (s.committed + [i])[..c.seen.value] == s.committed[..c.seen.value];
    }
  }

  lemma {:induction false} FoldOneMore(jobs: seq<Job>, order: seq<nat>, i: nat)
    requires i < |jobs|
    ensures Fold(jobs, order + [i]) == jobs[i].update(Fold(jobs, order))
  {
    assert (order + [i])[..|order|] == order;
  }

  lemma {:induction false} CallKeepsShared(jobs: seq<Job>, i: nat, c: Compiler, s: Shared, move: Move)
    requires i < |jobs| && StateOk(c) && RolesOk(jobs, i, jobs[i], c, s) && SharedOk(jobs, s)
    requires CallStep(i, jobs[i], c, s, move).Some?
    ensures SharedOk(jobs, CallStep(i, jobs[i], c, s, move).value.s)
  {
    hide Fold;
    if move.WriteRoles? && c.call.Placed? && c.call.next.Some? {
      FoldOneMore(jobs, s.written, i);
      assert s.written + [i] == s.committed;
    }
  }

  lemma {:induction false} OthersKeep(
    jobs: seq<Job>, i: nat, j: nat, job: Job, c: Compiler, s: Shared, after: Shared)
    requires i != j && SharedStep(i, s, after) && CompilerOk(jobs, j, job, c, s)
    ensures CompilerOk(jobs, j, job, c, after)
  {
    hide Fold, Accounted, StateOk, OutputOk;
    if c.seen.Some? {
      assert after.committed[..c.seen.value] == s.committed[..c.seen.value];
    }
  }

  lemma {:induction false} StepKeepsInv(jobs: seq<Job>, w: World, a: Action)
    requires Inv(jobs, w) && Next(jobs, w, a).Some?
    ensures Inv(jobs, Next(jobs, w, a).value)
  {
    hide StateOk, OutputOk, RolesOk, HistoryOk, SharedOk, CallStep, OtherStep, SharedStep;
    var i, move, s := a.compiler, a.move, w.shared;
    var job, c := jobs[i], w.cs[i];
    var after := Next(jobs, w, a).value;
    assert CompilerOk(jobs, i, job, c, s);
    StepKeepsOwn(jobs, i, c, s, move);
    forall j | 0 <= j < |jobs| ensures CompilerOk(jobs, j, jobs[j], after.cs[j], after.shared) {
      if j != i {
        OthersKeep(jobs, i, j, jobs[j], w.cs[j], s, after.shared);
      }
    }
  }

  lemma {:induction false} OtherKeepsRoles(jobs: seq<Job>, i: nat, job: Job, c: Compiler, s: Shared, move: Move)
    requires RolesOk(jobs, i, job, c, s) && HistoryOk(jobs, i, job, c, s) && OtherStep(c, move).Some?
    ensures var after := OtherStep(c, move).value;
      RolesOk(jobs, i, job, after, s) && HistoryOk(jobs, i, job, after, s)
  {
    hide Fold, Open, Closed, CanDrain, Taken, Restored, Committed;
    var after := OtherStep(c, move).value;
    assert after.call == c.call && after.seen == c.seen && after.prior == c.prior && after.moved == c.moved;
  }

  lemma {:induction false} StepKeepsOwn(jobs: seq<Job>, i: nat, c: Compiler, s: Shared, move: Move)
    requires i < |jobs| && jobs[i].bound > 0
    requires CompilerOk(jobs, i, jobs[i], c, s) && SharedOk(jobs, s) && Step(i, jobs[i], c, s, move).Some?
    ensures var o := Step(i, jobs[i], c, s, move).value;
      CompilerOk(jobs, i, jobs[i], o.c, o.s) && SharedOk(jobs, o.s) && SharedStep(i, s, o.s)
  {
    hide StateOk, OutputOk, RolesOk, HistoryOk, SharedOk, CallStep, OtherStep;
    if IsCallMove(move) {
      CallKeepsState(i, jobs[i], c, s, move);
      CallKeepsOutput(jobs, i, jobs[i], c, s, move);
      if EndsCall(move) {
        LastMovesKeepRoles(jobs, i, jobs[i], c, s, move);
      } else {
        FirstMovesKeepRoles(jobs, i, jobs[i], c, s, move);
      }
      CallKeepsHistory(jobs, i, jobs[i], c, s, move);
      CallKeepsShared(jobs, i, c, s, move);
      CallIsSharedStep(jobs, i, jobs[i], c, s, move);
    } else {
      OtherKeepsState(jobs[i], c, move);
      OtherKeepsOutput(jobs[i], c, move);
      OtherKeepsRoles(jobs, i, jobs[i], c, s, move);
    }
  }

  lemma {:induction false} RunKeepsInv(jobs: seq<Job>, w: World, actions: seq<Action>)
    requires Inv(jobs, w) && Run(jobs, w, actions).Some?
    ensures Inv(jobs, Run(jobs, w, actions).value)
    decreases |actions|
  {
    if actions != [] {
      RunKeepsInv(jobs, w, actions[..|actions| - 1]);
      StepKeepsInv(jobs, Run(jobs, w, actions[..|actions| - 1]).value, actions[|actions| - 1]);
    }
  }

  lemma {:induction false} StartInv(jobs: seq<Job>)
    requires ValidJobs(jobs)
    ensures Inv(jobs, Start(jobs))
  {
  }

  lemma {:induction false} ReachableInv(jobs: seq<Job>, w: World)
    requires ValidJobs(jobs) && Reachable(jobs, w)
    ensures Inv(jobs, w)
  {
    var actions :| Run(jobs, Start(jobs), actions) == Some(w);
    StartInv(jobs);
    RunKeepsInv(jobs, Start(jobs), actions);
  }

  // ----- the retained roles are serialisable

  /**
   The maps are the fold of the committed transitions in commit order, all of them once
   no commit is half done; a compiler is in that order exactly when it moved from running
   to finished with roles to keep; and every compiler that shares the maps read the fold
   of the commits before it, a committing one the fold of exactly its predecessors.
   */
  lemma {:induction false} RolesAreSerial(jobs: seq<Job>, w: World)
    requires ValidJobs(jobs) && Reachable(jobs, w)
    ensures var s := w.shared;
      && |w.cs| == |jobs|
      && s.written <= s.committed
      && s.roles == Fold(jobs, s.written)
      && (s.roleLock.None? ==> s.roles == Fold(jobs, s.committed))
      && (forall i | 0 <= i < |jobs| :: i in s.committed <==> w.cs[i].moved && Wants(jobs[i]))
      && (forall k | 0 <= k < |s.committed| ::
            s.committed[k] < |jobs| && w.cs[s.committed[k]].prior == Fold(jobs, s.committed[..k]))
      && (forall j, k | 0 <= j < k < |s.committed| :: s.committed[j] != s.committed[k])
      && (forall i | 0 <= i < |jobs| && jobs[i].retained && w.cs[i].seen.Some? ::
            && w.cs[i].seen.value <= |s.committed|
            && w.cs[i].prior == Fold(jobs, s.committed[..w.cs[i].seen.value]))
  {
    hide Fold, StateOk, OutputOk, RolesOk, Reachable;
    ReachableInv(jobs, w);
    var s := w.shared;
    forall i | 0 <= i < |jobs| ensures HistoryOk(jobs, i, jobs[i], w.cs[i], s) {
      assert CompilerOk(jobs, i, jobs[i], w.cs[i], s);
    }
    forall k | 0 <= k < |s.committed|
      ensures w.cs[s.committed[k]].seen == Some(k) && Wants(jobs[s.committed[k]])
    {
      assert HistoryOk(jobs, s.committed[k], jobs[s.committed[k]], w.cs[s.committed[k]], s);
    }
  }

  /** Exactly the finished calls that retain roles and are not restricted to the asserted taxonomy commit. */
  lemma {:induction false} WhoCommits(jobs: seq<Job>, w: World, i: nat)
    requires ValidJobs(jobs) && Reachable(jobs, w) && |w.cs| == |jobs| && i < |jobs|
    ensures i in w.shared.committed <==> w.cs[i].moved && jobs[i].retained && !jobs[i].assertedOnly
  {
    hide Fold, StateOk, OutputOk, RolesOk, Reachable;
    RolesAreSerial(jobs, w);
  }

  /** No step of any other call changes the maps or the order of commits. */
  lemma {:induction false} OthersLeaveRoles(jobs: seq<Job>, w: World, a: Action)
    requires ValidJobs(jobs) && Reachable(jobs, w) && |w.cs| == |jobs| && Next(jobs, w, a).Some?
    requires !jobs[a.compiler].retained || jobs[a.compiler].assertedOnly
    ensures var after := Next(jobs, w, a).value;
      && after.shared.roles == w.shared.roles
      && after.shared.committed == w.shared.committed && after.shared.written == w.shared.written
  {
    hide Fold, StateOk, OutputOk, HistoryOk, Reachable;
    ReachableInv(jobs, w);
    assert CompilerOk(jobs, a.compiler, jobs[a.compiler], w.cs[a.compiler], w.shared);
  }

  /** A step that changes the maps writes what its call made of the maps as they are. */
  lemma {:induction false} WritersUpdateRoles(jobs: seq<Job>, w: World, a: Action)
    requires ValidJobs(jobs) && Reachable(jobs, w) && |w.cs| == |jobs| && Next(jobs, w, a).Some?
    ensures var after := Next(jobs, w, a).value;
      after.shared.roles == w.shared.roles ||
      (a.move.WriteRoles? && after.shared.roles == jobs[a.compiler].update(w.shared.roles)
       && after.shared.written == w.shared.written + [a.compiler])
  {
    hide Fold, StateOk, OutputOk, HistoryOk, Reachable;
    ReachableInv(jobs, w);
    assert CompilerOk(jobs, a.compiler, jobs[a.compiler], w.cs[a.compiler], w.shared);
  }

  lemma {:induction false} HoldersAreInFlight(jobs: seq<Job>, w: World)
    requires Inv(jobs, w)
    ensures w.shared.claim.Some? ==>
      w.shared.claim.value < |jobs| && InFlight(w.cs[w.shared.claim.value].call)
    ensures w.shared.roleLock.Some? ==>
      w.shared.roleLock.value < |jobs| && InFlight(w.cs[w.shared.roleLock.value].call)
  {
    hide Fold, StateOk, OutputOk, HistoryOk;
    var s := w.shared;
    if s.claim.Some? {
      assert CompilerOk(jobs, s.claim.value, jobs[s.claim.value], w.cs[s.claim.value], s);
    }
    if s.roleLock.Some? {
      assert CompilerOk(jobs, s.roleLock.value, jobs[s.roleLock.value], w.cs[s.roleLock.value], s);
    }
  }

  /** With no call in flight the maps are free and hold every commit. */
  lemma {:induction false} QuietWorldIsFree(jobs: seq<Job>, w: World)
    requires ValidJobs(jobs) && Reachable(jobs, w)
    requires forall i | 0 <= i < |w.cs| :: !InFlight(w.cs[i].call)
    ensures w.shared.claim.None? && w.shared.roleLock.None?
    ensures w.shared.roles == Fold(jobs, w.shared.committed)
  {
    ReachableInv(jobs, w);
    HoldersAreInFlight(jobs, w);
  }

  // ----- what time cannot undo

  ghost predicate Later(c: Compiler, d: Compiler) {
    && (c.cancelTrue ==> d.cancelTrue)
    && (c.output.cancelled && c.output.prepared ==>
          d.output.cancelled && d.output.prepared && d.delivered == c.delivered)
    && (c.drain.Dropped? && c.output.prepared ==>
          d.drain.Dropped? && d.output.prepared && d.delivered == c.delivered)
    && c.delivered <= d.delivered
    && (c.moved ==> d.moved)
  }

  lemma {:induction false} StepIsLater(jobs: seq<Job>, i: nat, c: Compiler, s: Shared, move: Move)
    requires i < |jobs| && CompilerOk(jobs, i, jobs[i], c, s) && Step(i, jobs[i], c, s, move).Some?
    ensures Later(c, Step(i, jobs[i], c, s, move).value.c)
    ensures s.committed <= Step(i, jobs[i], c, s, move).value.s.committed
  {
    hide Concat, WellSized, Fold, HistoryOk, RolesOk;

  }

  lemma {:induction false} RunIsLater(jobs: seq<Job>, w: World, actions: seq<Action>)
    requires Inv(jobs, w) && Run(jobs, w, actions).Some?
    ensures var after := Run(jobs, w, actions).value;
      && w.shared.committed <= after.shared.committed
      && forall i | 0 <= i < |jobs| :: Later(w.cs[i], after.cs[i])
    decreases |actions|
  {
    hide StateOk, OutputOk, RolesOk, HistoryOk, SharedOk, Step, Later;
    if actions == [] {
      forall i | 0 <= i < |jobs| ensures Later(w.cs[i], w.cs[i]) {
        LaterItself(w.cs[i]);
      }
    } else {
      var init, last := actions[..|actions| - 1], actions[|actions| - 1];
      RunIsLater(jobs, w, init);
      RunKeepsInv(jobs, w, init);
      var before := Run(jobs, w, init).value;
      var k := last.compiler;
      assert CompilerOk(jobs, k, jobs[k], before.cs[k], before.shared);
      StepIsLater(jobs, k, before.cs[k], before.shared, last.move);
      LaterChains(w.cs[k], before.cs[k], Run(jobs, w, actions).value.cs[k]);
    }
  }

  lemma {:induction false} LaterItself(c: Compiler)
    ensures Later(c, c)
  {
  }

  lemma {:induction false} LaterChains(c: Compiler, d: Compiler, e: Compiler)
    requires Later(c, d) && Later(d, e)
    ensures Later(c, e)
  {
  }

  /** A compiler whose cancel succeeded never commits roles and never delivers a batch. */
  lemma {:induction false} CancelIsFinal(jobs: seq<Job>, w: World, actions: seq<Action>, i: nat)
    requires ValidJobs(jobs) && Reachable(jobs, w) && |w.cs| == |jobs| && i < |jobs| && w.cs[i].cancelTrue
    requires Run(jobs, w, actions).Some?
    ensures var after := Run(jobs, w, actions).value;
      && after.cs[i].state.Cancelled?
      && i !in after.shared.committed
      && after.cs[i].output == ABSENT
      && after.cs[i].delivered == []
  {
    hide Fold, RolesOk, Reachable, Run, Concat, WellSized;
    ReachableInv(jobs, w);
    RunIsLater(jobs, w, actions);
    RunKeepsInv(jobs, w, actions);
    var after := Run(jobs, w, actions).value;
    assert Later(w.cs[i], after.cs[i]);
    assert CompilerOk(jobs, i, jobs[i], after.cs[i], after.shared);
  }

  // ----- batches are handed out exactly once

  /** What was delivered is a prefix of the edges the call computed, and counted correctly at the end. */
  lemma {:induction false} DeliveredIsPrefix(jobs: seq<Job>, w: World, i: nat)
    requires ValidJobs(jobs) && Reachable(jobs, w) && |w.cs| == |jobs| && i < |jobs|
    ensures var c := w.cs[i];
      var edges := jobs[i].edges(c.prior);
      && Concat(c.delivered) <= edges
      && WellSized(c.delivered, jobs[i].bound)
      && (c.output.exhausted ==>
            && Concat(c.delivered) == edges
            && c.output.batches == Ceiling(|edges|, jobs[i].bound)
            && c.output.boundaryCalls == Ceiling(|edges|, jobs[i].bound) + 1
            && c.output.peak == if |edges| < jobs[i].bound then |edges| else jobs[i].bound)
  {
    hide Fold, RolesOk, HistoryOk, Reachable;
    ReachableInv(jobs, w);
    var c := w.cs[i];
    assert CompilerOk(jobs, i, jobs[i], c, w.shared);
    assert Concat([]) == [];
    if c.output.exhausted {
      CountersAtExhaustion(c.output, c.drain, c.issued, c.delivered);
    }
  }

  /** A drain starts only when no other one is in flight, and it continues where the last delivery ended. */
  lemma {:induction false} OneDrainAtATime(jobs: seq<Job>, w: World, i: nat)
    requires ValidJobs(jobs) && Reachable(jobs, w) && |w.cs| == |jobs| && i < |jobs|
    requires Next(jobs, w, Action(i, TakeStream)).Some?
    ensures w.cs[i].drain.NoDrain?
    ensures Next(jobs, w, Action(i, TakeStream)).value.cs[i].drain
      == Holding(Stream(jobs[i].edges(w.cs[i].prior), |Concat(w.cs[i].delivered)|))
  {
    hide Fold, RolesOk, HistoryOk, Reachable, Concat, WellSized;
    ReachableInv(jobs, w);
    assert CompilerOk(jobs, i, jobs[i], w.cs[i], w.shared);
  }

  /**
   A drain that fails delivers nothing, and the next drain can start exactly when the
   output was not closed meanwhile; it then starts from the same position.
   */
  lemma {:induction false} FailedDrainCanBeRetried(jobs: seq<Job>, w: World, i: nat)
    requires ValidJobs(jobs) && Reachable(jobs, w) && |w.cs| == |jobs| && i < |jobs|
    requires w.cs[i].drain.Ready? && w.cs[i].drain.batch.None?
    requires Next(jobs, w, Action(i, EndDrain)).Some?
    ensures var after := Next(jobs, w, Action(i, EndDrain)).value;
      var retry := Next(jobs, after, Action(i, TakeStream));
      && after.cs[i].delivered == w.cs[i].delivered
      && after.cs[i].output.remaining == w.cs[i].output.remaining
      && (retry.Some? <==> !w.cs[i].output.cancelled)
      && (retry.Some? ==> retry.value.cs[i].drain == Holding(w.cs[i].drain.stream))
  {
    hide Fold, RolesOk, HistoryOk, Reachable, Concat, WellSized;
    ReachableInv(jobs, w);
    assert CompilerOk(jobs, i, jobs[i], w.cs[i], w.shared);
  }

  lemma {:induction false} CannotStart(jobs: seq<Job>, w: World, i: nat)
    requires |w.cs| == |jobs| && i < |jobs| && (w.cs[i].output.cancelled || w.cs[i].output.draining)
    ensures Next(jobs, w, Action(i, TakeStream)).None?
  {
  }

  /** Once the output is closed, nothing more is ever delivered and no drain starts. */
  lemma {:induction false} ClosedDeliversNothing(jobs: seq<Job>, w: World, actions: seq<Action>, i: nat)
    requires ValidJobs(jobs) && Reachable(jobs, w) && |w.cs| == |jobs| && i < |jobs|
    requires w.cs[i].output.cancelled && Run(jobs, w, actions).Some?
    ensures var after := Run(jobs, w, actions).value;
      && after.cs[i].delivered == w.cs[i].delivered
      && Next(jobs, after, Action(i, TakeStream)).None?
  {
    hide Next, Fold, RolesOk, HistoryOk, Reachable, Run, Concat, WellSized;
    ReachableInv(jobs, w);
    RunIsLater(jobs, w, actions);
    var after := Run(jobs, w, actions).value;
    assert CompilerOk(jobs, i, jobs[i], w.cs[i], w.shared);
    assert Later(w.cs[i], after.cs[i]);
    CannotStart(jobs, after, i);
  }

  /**
   A drain that returns early, between taking the stream and the guarded preparation, is
   the one failure that cannot be retried: the output stays active and never delivers again.
   */
  lemma {:induction false} DroppedDrainIsStuck(jobs: seq<Job>, w: World, actions: seq<Action>, i: nat)
    requires ValidJobs(jobs) && Reachable(jobs, w) && |w.cs| == |jobs| && i < |jobs|
    requires w.cs[i].drain.Dropped? && Run(jobs, w, actions).Some?
    ensures var after := Run(jobs, w, actions).value;
      && after.cs[i].delivered == w.cs[i].delivered
      && Concat(after.cs[i].delivered) != jobs[i].edges(after.cs[i].prior)
      && Next(jobs, after, Action(i, TakeStream)).None?
  {
    hide Fold, RolesOk, HistoryOk, Reachable, Run, WellSized;
    ReachableInv(jobs, w);
    RunIsLater(jobs, w, actions);
    RunKeepsInv(jobs, w, actions);
    var after := Run(jobs, w, actions).value;
    assert CompilerOk(jobs, i, jobs[i], w.cs[i], w.shared);
    assert CompilerOk(jobs, i, jobs[i], after.cs[i], after.shared);
    assert Later(w.cs[i], after.cs[i]);
    CannotStart(jobs, after, i);
  }

  // ----- calls end

  predicate InFlight(call: Call) {
    !(call.NotStarted? || call.Returned? || call.Abandoned?)
  }

  /**
   A compiler whose call has ended is left running exactly when the call broke off before
   its guarded body and no cancel has succeeded on it.
   */
  lemma {:induction false} ReturnedIsSettled(jobs: seq<Job>, w: World, i: nat)
    requires ValidJobs(jobs) && Reachable(jobs, w) && |w.cs| == |jobs| && i < |jobs|
    ensures w.cs[i].state.Running? && !InFlight(w.cs[i].call) <==>
      w.cs[i].call.Abandoned? && !w.cs[i].cancelTrue
  {
    hide Fold, RolesOk, HistoryOk, Reachable, OutputOk;
    ReachableInv(jobs, w);
    assert CompilerOk(jobs, i, jobs[i], w.cs[i], w.shared);
  }

  function Rank(call: Call): nat {
    match call
    case NotStarted => 11
    case Begun => 10
    case Claimed => 9
    case Built(_, _) => 8
    case OutputLocked(_, _) => 7
    case RolesLocked(_, _) => 6
    case Moved(_, _) => 5
    case Placed(_) => 4
    case Ending => 3
    case Leaving => 2
    case Returned => 0
    case Abandoned => 0
  }

  /** Every step of a call brings it closer to its end; no other step touches it. */
  lemma {:induction false} CallsAdvance(jobs: seq<Job>, w: World, a: Action)
    requires Inv(jobs, w) && Next(jobs, w, a).Some?
    ensures var c, d := w.cs[a.compiler].call, Next(jobs, w, a).value.cs[a.compiler].call;
      if IsCallMove(a.move) then Rank(d) < Rank(c) else d == c
  {
    hide OutputOk, RolesOk, HistoryOk, SharedOk, Fold;
    assert CompilerOk(jobs, a.compiler, jobs[a.compiler], w.cs[a.compiler], w.shared);
  }

  /** The step a call takes next, if it does not have to wait for a lock. */
  function Ahead(job: Job, c: Compiler, s: Shared): Move {
    match c.call
    case NotStarted => Begin
    case Begun => if job.retained && s.claim.Some? then RefuseClaim else Claim
    case Claimed => Build
    case Built(_, next) =>
      if job.batched then (if c.lock.ByClose? then StoreClosed else LockOutput)
      else if next.Some? then LockRoles
      else if c.state.Running? then Finish else RefuseFinish
    case OutputLocked(_, next) =>
      if next.Some? then LockRoles else if c.state.Running? then Finish else RefuseFinish
    case RolesLocked(_, _) => if c.state.Running? then Finish else RefuseFinish
    case Moved(_, _) => Place
    case Placed(_) => WriteRoles
    case Ending => ReleaseClaim
    case Leaving => Return
    case Returned => Return
    case Abandoned => Return
  }

  lemma {:induction false} AheadIsPossible(i: nat, jobs: seq<Job>, job: Job, c: Compiler, s: Shared)
    requires StateOk(c) && OutputOk(job, c) && RolesOk(jobs, i, job, c, s) && InFlight(c.call)
    requires s.roleLock.None? || s.roleLock == Some(i)
    ensures Step(i, job, c, s, Ahead(job, c, s)).Some?
  {
    hide Accounted;
    if c.call.Built? || c.call.OutputLocked? || c.call.Claimed? {
      assert s.roleLock.None?;
    }
  }

  /** While any call is in flight, some call can take its next step: the locks never deadlock. */
  lemma {:induction false} NoDeadlock(jobs: seq<Job>, w: World, i: nat) returns (j: nat)
    requires ValidJobs(jobs) && Reachable(jobs, w) && |w.cs| == |jobs| && i < |jobs|
    requires InFlight(w.cs[i].call)
    ensures j < |jobs| && InFlight(w.cs[j].call)
    ensures Next(jobs, w, Action(j, Ahead(jobs[j], w.cs[j], w.shared))).Some?
  {
    hide Reachable, Fold, StateOk, OutputOk, RolesOk, HistoryOk, Step, Ahead;
    ReachableInv(jobs, w);
    j := i;
    if w.shared.roleLock.Some? {
      HoldersAreInFlight(jobs, w);
      j := w.shared.roleLock.value;
    }
    assert CompilerOk(jobs, j, jobs[j], w.cs[j], w.shared);
    AheadIsPossible(j, jobs, jobs[j], w.cs[j], w.shared);
  }

  // ----- an open output can be drained to the end

  ghost predicate Leads(jobs: seq<Job>, w: World, after: World)
    requires |w.cs| == |jobs|
  {
    exists actions :: Run(jobs, w, actions) == Some(after)
  }

  lemma {:induction false} LeadsItself(jobs: seq<Job>, w: World)
    requires |w.cs| == |jobs|
    ensures Leads(jobs, w, w)
  {
    assert Run(jobs, w, []) == Some(w);
  }

  /** One more step of compiler `i`. */
  lemma {:induction false} StepLeads(jobs: seq<Job>, start: World, w: World, i: nat, move: Move) returns (after: World)
    requires |start.cs| == |jobs| == |w.cs| && i < |jobs| && Leads(jobs, start, w) && Inv(jobs, w)
    requires Step(i, jobs[i], w.cs[i], w.shared, move).Some?
    ensures Leads(jobs, start, after) && Inv(jobs, after) && |after.cs| == |jobs|
    ensures after.cs[i] == Step(i, jobs[i], w.cs[i], w.shared, move).value.c
  {
    hide Inv, Step;
    var a := Action(i, move);
    var actions :| Run(jobs, start, actions) == Some(w);
    var more := actions + [a];
    assert more[..|more| - 1] == actions;
    after := Next(jobs, w, a).value;
    assert Run(jobs, start, more) == Some(after);
    StepKeepsInv(jobs, w, a);
  }

  /** A compiler whose output is open and not in use by anyone. */
  predicate Resting(c: Compiler) {
    Open(c.output) && c.lock.Free? && c.drain.NoDrain?
  }

  lemma {:induction false} OpenFacts(jobs: seq<Job>, w: World, i: nat)
    requires Inv(jobs, w) && i < |jobs| && Open(w.cs[i].output)
    ensures var c := w.cs[i];
      && !c.lock.ByClose?
      && (c.lock.ByCall? ==> c.call.Placed? || c.call.Ending? || c.call.Leaving?)
      && c.output.bound > 0 && c.output.remaining > 0
      && (c.drain.NoDrain? ==>
            && CanDrain(c.output) && c.output.stream.value.Valid()
            && c.output.stream.value.Remaining() == c.output.remaining)
      && (c.drain.Holding? || c.drain.Ready? ==>
            c.drain.stream.Valid() && c.drain.stream.Remaining() == c.output.remaining)
      && (c.drain.Ready? && c.drain.batch.Some? ==> c.drain.batch.value == c.drain.stream.Next(c.output.bound))
  {
    hide Fold, RolesOk, HistoryOk, Concat, WellSized;
    assert CompilerOk(jobs, i, jobs[i], w.cs[i], w.shared);
    assert OutputOk(jobs[i], w.cs[i]);
  }

  /** A call that still holds the lock of an open output only has to end. */
  lemma {:induction false} CallLetsGo(jobs: seq<Job>, start: World, w: World, i: nat) returns (after: World)
    requires |start.cs| == |jobs| == |w.cs| && i < |jobs| && Leads(jobs, start, w) && Inv(jobs, w)
    requires Open(w.cs[i].output)
    ensures Leads(jobs, start, after) && Inv(jobs, after) && |after.cs| == |jobs| && after.cs[i].lock.Free?
    ensures after.cs[i].output == w.cs[i].output && after.cs[i].drain == w.cs[i].drain
    decreases Rank(w.cs[i].call)
  {
    hide Inv, Leads, Open, OtherStep;
    OpenFacts(jobs, w, i);
    after := w;
    if w.cs[i].lock.ByCall? {
      var call := w.cs[i].call;
      var move := if call.Placed? then WriteRoles else if call.Ending? then ReleaseClaim else Return;
      after := StepLeads(jobs, start, w, i, move);
      after := CallLetsGo(jobs, start, after, i);
    }
  }

  /** A drain in flight that has not lost its stream can end, and leaves the output resting or exhausted. */
  lemma {:induction false} DrainEnds(jobs: seq<Job>, start: World, w: World, i: nat) returns (after: World)
    requires |start.cs| == |jobs| == |w.cs| && i < |jobs| && Leads(jobs, start, w) && Inv(jobs, w)
    requires Open(w.cs[i].output) && w.cs[i].lock.Free? && !w.cs[i].drain.Dropped?
    ensures Leads(jobs, start, after) && Inv(jobs, after) && |after.cs| == |jobs|
    ensures Resting(after.cs[i]) || after.cs[i].output.exhausted
    ensures after.cs[i].output.remaining <= w.cs[i].output.remaining
    ensures w.cs[i].drain.Holding? ==> after.cs[i].output.remaining < w.cs[i].output.remaining
  {
    hide Inv, Leads, CallStep;
    OpenFacts(jobs, w, i);
    after := w;
    if after.cs[i].drain.Holding? {
      after := StepLeads(jobs, start, after, i, BuildBatch);
    }
    if after.cs[i].drain.Ready? {
      after := StepLeads(jobs, start, after, i, EndDrain);
    }
  }

  /** A resting output can be drained batch by batch until it is exhausted. */
  lemma {:induction false} RestCanBeDrained(jobs: seq<Job>, start: World, w: World, i: nat) returns (after: World)
    requires |start.cs| == |jobs| == |w.cs| && i < |jobs| && Leads(jobs, start, w) && Inv(jobs, w)
    requires Resting(w.cs[i]) || w.cs[i].output.exhausted
    ensures Leads(jobs, start, after) && Inv(jobs, after) && |after.cs| == |jobs| && after.cs[i].output.exhausted
    decreases w.cs[i].output.remaining
  {
    hide Inv, Leads, CallStep;
    after := w;
    if !w.cs[i].output.exhausted {
      OpenFacts(jobs, w, i);
      after := StepLeads(jobs, start, after, i, TakeStream);
      after := DrainEnds(jobs, start, after, i);
      after := RestCanBeDrained(jobs, start, after, i);
    }
  }

  /**
   Some continuation delivers all the edges of an open output exactly when its stream was
   not lost: whatever else is in flight, failed drains and waiting calls included.
   */
  lemma {:induction false} OpenCanBeDrained(jobs: seq<Job>, w: World, i: nat)
    requires ValidJobs(jobs) && Reachable(jobs, w) && |w.cs| == |jobs| && i < |jobs|
    requires Open(w.cs[i].output)
    ensures !w.cs[i].drain.Dropped? <==>
      exists after :: Leads(jobs, w, after) && |after.cs| == |jobs|
        && Concat(after.cs[i].delivered) == jobs[i].edges(after.cs[i].prior)
  {
    hide Reachable, Run, Inv, Concat, Open;
    ReachableInv(jobs, w);
    if w.cs[i].drain.Dropped? {
      forall after | Leads(jobs, w, after) && |after.cs| == |jobs|
        ensures Concat(after.cs[i].delivered) != jobs[i].edges(after.cs[i].prior)
      {
        var actions :| Run(jobs, w, actions) == Some(after);
        DroppedDrainIsStuck(jobs, w, actions, i);
      }
    } else {
      LeadsItself(jobs, w);
      var after := CallLetsGo(jobs, w, w, i);
      after := DrainEnds(jobs, w, after, i);
      after := RestCanBeDrained(jobs, w, after, i);
      ExhaustedIsAll(jobs, after, i);
    }
  }

  lemma {:induction false} ExhaustedIsAll(jobs: seq<Job>, w: World, i: nat)
    requires Inv(jobs, w) && i < |jobs| && w.cs[i].output.exhausted
    ensures Concat(w.cs[i].delivered) == jobs[i].edges(w.cs[i].prior)
  {
    hide Fold, RolesOk, HistoryOk, StateOk, WellSized;
    assert CompilerOk(jobs, i, jobs[i], w.cs[i], w.shared);
    assert Concat([]) == [];
    CountersAtExhaustion(w.cs[i].output, w.cs[i].drain, w.cs[i].issued, w.cs[i].delivered);
  }

  // ----- the two early returns happen

  lemma {:induction false} StepReaches(jobs: seq<Job>, w: World, a: Action) returns (after: World)
    requires Reachable(jobs, w) && |w.cs| == |jobs| && Next(jobs, w, a).Some?
    ensures after == Next(jobs, w, a).value && Reachable(jobs, after) && |after.cs| == |jobs|
  {
    var actions :| Run(jobs, Start(jobs), actions) == Some(w);
    var more := actions + [a];
    assert more[..|more| - 1] == actions;
    after := Next(jobs, w, a).value;
    assert Run(jobs, Start(jobs), more) == Some(after);
  }

  lemma {:induction false} StartReaches(jobs: seq<Job>)
    ensures Reachable(jobs, Start(jobs))
  {
    assert Run(jobs, Start(jobs), []) == Some(Start(jobs));
  }

  /** A batched call without retained roles whose ontology yields the given edges. */
  function PlainJob(edges: seq<Edge>): Job {
    Job(true, false, false, 1, (roles: Roles) => roles, (roles: Roles) => edges)
  }

  /** A compile call breaks off before its guarded body, and its compiler stays running. */
  lemma {:induction false} EarlyReturnHappens(edges: seq<Edge>) returns (jobs: seq<Job>, w: World)
    ensures ValidJobs(jobs) && Reachable(jobs, w) && |w.cs| == |jobs| == 1
    ensures w.cs[0].state.Running? && w.cs[0].call.Abandoned? && !w.cs[0].cancelTrue
  {
    hide Run, Reachable;
    jobs, w := [PlainJob(edges)], Start([PlainJob(edges)]);
    StartReaches(jobs);
    w := StepReaches(jobs, w, Action(0, Begin));
    w := StepReaches(jobs, w, Action(0, Abandon));
  }

  /** One step of the only compiler. */
  lemma {:induction false} OnlyStepReaches(job: Job, c: Compiler, s: Shared, move: Move) returns (o: Outcome)
    requires Reachable([job], World([c], s)) && Step(0, job, c, s, move).Some?
    ensures o == Step(0, job, c, s, move).value && Reachable([job], World([o.c], o.s))
  {
    hide Step, Reachable;
    var after := StepReaches([job], World([c], s), Action(0, move));
    o := Step(0, job, c, s, move).value;
    assert [c][0 := o.c] == [o.c];
  }

  const UNSHARED: Shared := Shared(NO_ROLES, None, None, [], [])

  lemma {:induction false} BuiltHappens(edge: Edge)
    ensures var job := PlainJob([edge]);
      Reachable([job], World([NEW_COMPILER.(state := Running, call := BuiltCall(job, NO_ROLES), seen := Some(0))], UNSHARED))
  {
    hide Run, Reachable, BuiltCall;
    var job := PlainJob([edge]);
    StartReaches([job]);
    assert Start([job]) == World([NEW_COMPILER], UNSHARED);
    var o := OnlyStepReaches(job, NEW_COMPILER, UNSHARED, Begin);
    o := OnlyStepReaches(job, o.c, o.s, Claim);
    o := OnlyStepReaches(job, o.c, o.s, Build);
  }

  lemma {:induction false} InstalledHappens(edge: Edge) returns (o: Outcome)
    ensures Reachable([PlainJob([edge])], World([o.c], o.s))
    ensures o.c.lock.Free? && o.c.output == Installed(Stream([edge], 0), 1) && o.c.drain.NoDrain?
  {
    hide Run, Reachable, Installed;
    var job := PlainJob([edge]);
    BuiltHappens(edge);
    var c := NEW_COMPILER.(state := Running, call := BuiltCall(job, NO_ROLES), seen := Some(0));
    o := OnlyStepReaches(job, c, UNSHARED, LockOutput);
    o := OnlyStepReaches(job, o.c, o.s, Finish);
    o := OnlyStepReaches(job, o.c, o.s, Place);
    o := OnlyStepReaches(job, o.c, o.s, WriteRoles);
    o := OnlyStepReaches(job, o.c, o.s, ReleaseClaim);
    o := OnlyStepReaches(job, o.c, o.s, Return);
  }

  /** A drain loses its stream between two critical sections, and the output stays active. */
  lemma {:induction false} DroppedDrainHappens(edge: Edge) returns (jobs: seq<Job>, w: World)
    ensures ValidJobs(jobs) && Reachable(jobs, w) && |w.cs| == |jobs| == 1
    ensures w.cs[0].drain.Dropped? && Open(w.cs[0].output) && w.cs[0].output.remaining == 1
  {
    hide Run, Reachable;
    var o := InstalledHappens(edge);
    var job := PlainJob([edge]);
    o := OnlyStepReaches(job, o.c, o.s, TakeStream);
    o := OnlyStepReaches(job, o.c, o.s, DropStream);
    jobs, w := [job], World([o.c], o.s);
  }
}
