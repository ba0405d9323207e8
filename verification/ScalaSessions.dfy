/**
 The Scala-instance lifecycle of a projector: role maps live on from call to call, in a
 native copy while all calls were compiled natively, and in a shadow that scalar calls use.
 */
module ScalaSessions {
  import opened Wrappers
  import CompilerSteps

  type Roles = CompilerSteps.Roles

  const NO_ROLES: Roles := CompilerSteps.NO_ROLES

  /** What a compiled ontology does to the role maps, natively or not. */
  type Update = Roles -> Roles

  /**
   What the native preparation answers.  It commits its roles before its last checks, so
   it may decline or raise either before or after its commit.
   */
  datatype NativeReply = Compiled | Declined(committed: bool) | Raised(committed: bool)

  /** One call and everything its environment decides. */
  datatype Request = Request(
    update: Update, wantsNative: bool, stateAvailable: bool, reply: NativeReply, scalarWorks: bool)

  /** A run names the role maps it was compiled with. */
  datatype Outcome = NativeRun(start: Roles) | ScalarRun(start: Roles) | Failed | Busy

  datatype Session = Session(shadow: Roles, native: Option<Roles>, disabled: bool, invocations: nat, locked: bool)

  const FRESH: Session := Session(NO_ROLES, None, false, 0, false)

  // ----- one call

  /** A non-empty shadow without native state shows that scalar calls came first. */
  predicate StaysScalar(s: Session) {
    s.disabled || (s.native.None? && s.shadow != NO_ROLES)
  }

  predicate TriesNative(s: Session, r: Request) {
    r.wantsNative && !StaysScalar(s) && (s.native.Some? || r.stateAvailable)
  }

  function NativeStart(s: Session): Roles {
    if s.native.Some? then s.native.value else NO_ROLES
  }

  predicate Commits(reply: NativeReply) {
    reply.Compiled? || reply.committed
  }

  /** The native state after the native part of the call. */
  function NativeAfter(s: Session, r: Request): Option<Roles> {
    if !TriesNative(s, r) then s.native
    else Some(if Commits(r.reply) then r.update(NativeStart(s)) else NativeStart(s))
  }

  function After(s: Session, r: Request): Session {
    if s.locked then s
    else if TriesNative(s, r) && r.reply.Raised? then s.(native := NativeAfter(s, r))
    else if TriesNative(s, r) && r.reply.Compiled? then
      Session(NativeAfter(s, r).value, NativeAfter(s, r), s.disabled, s.invocations + 1, true)
    else if !r.scalarWorks then s.(native := NativeAfter(s, r), disabled := true)
    else Session(r.update(s.shadow), NativeAfter(s, r), true, s.invocations + 1, true)
  }

  function Answer(s: Session, r: Request): Outcome {
    if s.locked then Busy
    else if TriesNative(s, r) && r.reply.Raised? then Failed
    else if TriesNative(s, r) && r.reply.Compiled? then NativeRun(NativeStart(s))
    else if !r.scalarWorks then Failed
    else ScalarRun(s.shadow)
  }

  /** The fields of the projector and the generator of one call, up to its first edge. */
  class Projector {
    var scalaState: Roles
    var nativeScalaState: Option<Roles>
    var nativeScalaDisabled: bool
    var scalaInvocationCount: nat
    var scalaLocked: bool

    function Value(): Session
      reads this
    {
      Session(scalaState, nativeScalaState, nativeScalaDisabled, scalaInvocationCount, scalaLocked)
    }

    constructor ()
      ensures Value() == FRESH
    {
      scalaState, nativeScalaState, nativeScalaDisabled := NO_ROLES, None, false;
      scalaInvocationCount, scalaLocked := 0, false;
    }

    /** Prepares the compilation of one call; the lock is kept while its edges are read. */
    method Prepare(r: Request) returns (outcome: Outcome)
      modifies this
      ensures Value() == After(old(Value()), r)
      ensures outcome == Answer(old(Value()), r)
      ensures outcome.Busy? <==> old(scalaLocked)
      ensures outcome.Busy? ==> Value() == old(Value())
      ensures scalaLocked == (outcome.Busy? || outcome.NativeRun? || outcome.ScalarRun?)
      ensures scalaInvocationCount ==
        old(scalaInvocationCount) + if outcome.NativeRun? || outcome.ScalarRun? then 1 else 0
      ensures outcome.NativeRun? ==>
        && r.wantsNative && !old(nativeScalaDisabled) && r.reply.Compiled?
        && outcome.start == (if old(nativeScalaState).Some? then old(nativeScalaState).value else NO_ROLES)
        && scalaState == r.update(outcome.start) && nativeScalaState == Some(scalaState) && !nativeScalaDisabled
      ensures outcome.ScalarRun? ==>
        && r.scalarWorks && nativeScalaDisabled
        && outcome.start == old(scalaState) && scalaState == r.update(old(scalaState))
      ensures outcome.Failed? ==> scalaState == old(scalaState)
    {
      if scalaLocked {
        return Busy;
      }
      var roleState := scalaState;
      var compiled := false;
      outcome := Failed;
      if r.wantsNative {
        var fallback := false;
        if nativeScalaState.None? && scalaState != NO_ROLES {
          nativeScalaDisabled := true;
        }
        if nativeScalaDisabled {
          fallback := true;
        } else if nativeScalaState.None? {
          if r.stateAvailable {
            nativeScalaState := Some(NO_ROLES);
          } else {
            fallback := true;
          }
        }
        if !fallback {
          var start := nativeScalaState.value;
          if Commits(r.reply) {
            nativeScalaState := Some(r.update(start));
          }
          if r.reply.Raised? {
            return Failed;
          }
          compiled := r.reply.Compiled?;
          outcome := NativeRun(start);
        }
      }
      if compiled {
        scalaState := nativeScalaState.value;
      } else {
        nativeScalaDisabled := true;
        if !r.scalarWorks {
          return Failed;
        }
        outcome := ScalarRun(roleState);
        scalaState := r.update(roleState);
      }
      scalaInvocationCount := scalaInvocationCount + 1;
      scalaLocked := true;
    }

    /** The generator of the call has ended. */
    method Release()
      modifies this`scalaLocked
      ensures Value() == old(Value()).(locked := false)
    {
      scalaLocked := false;
    }
  }

  // ----- histories of calls, each released before the next

  function Fold(updates: seq<Update>): Roles {
    if updates == [] then NO_ROLES else updates[|updates| - 1](Fold(updates[..|updates| - 1]))
  }

  function Released(s: Session): Session {
    s.(locked := false)
  }

  function SessionAfter(rs: seq<Request>): Session {
    if rs == [] then FRESH
    else Released(After(SessionAfter(rs[..|rs| - 1]), rs[|rs| - 1]))
  }

  function OutcomeOf(rs: seq<Request>, k: nat): Outcome
    requires k < |rs|
  {
    Answer(SessionAfter(rs[..k]), rs[k])
  }

  predicate Ran(o: Outcome) {
    o.NativeRun? || o.ScalarRun?
  }

  /** Updates that are in force, and native commits that no call has confirmed yet. */
  datatype Ledger = Ledger(confirmed: seq<Update>, pending: seq<Update>)

  function LedgerStep(s: Session, l: Ledger, r: Request): Ledger {
    if TriesNative(s, r) && r.reply.Raised? then
      Ledger(l.confirmed, if r.reply.committed then l.pending + [r.update] else l.pending)
    else if TriesNative(s, r) && r.reply.Compiled? then
      Ledger(l.confirmed + l.pending + [r.update], [])
    else if r.scalarWorks then Ledger(l.confirmed + [r.update], l.pending)
    else l
  }

  function LedgerAfter(rs: seq<Request>): Ledger {
    if rs == [] then Ledger([], []) else
      var init := rs[..|rs| - 1];
      LedgerStep(SessionAfter(init), LedgerAfter(init), rs[|rs| - 1])
  }

  ghost predicate LedgerOk(s: Session, l: Ledger) {
    && !s.locked
    && s.shadow == Fold(l.confirmed)
    && (!s.disabled ==> NativeStart(s) == Fold(l.confirmed + l.pending))
    && (!s.disabled && s.native.None? ==> l.confirmed == [] && l.pending == [])
  }

  lemma {:induction false} FoldOneMore(updates: seq<Update>, u: Update)
    ensures Fold(updates + [u]) == u(Fold(updates))
  {
    assert (updates + [u])[..|updates|] == updates;
  }

  lemma {:induction false} StepKeepsLedger(s: Session, l: Ledger, r: Request)
    requires LedgerOk(s, l)
    ensures LedgerOk(Released(After(s, r)), LedgerStep(s, l, r))
  {
    hide Fold;
    FoldOneMore(l.confirmed, r.update);
    FoldOneMore(l.confirmed + l.pending, r.update);
    assert (l.confirmed + l.pending) + [r.update] == l.confirmed + (l.pending + [r.update]);
    assert (l.confirmed + l.pending + [r.update]) + [] == l.confirmed + l.pending + [r.update];
    NothingFolded(l);
  }

  lemma {:induction false} NothingFolded(l: Ledger)
    ensures l.confirmed == [] ==> Fold(l.confirmed) == NO_ROLES
    ensures l.confirmed == [] && l.pending == [] ==> Fold(l.confirmed + l.pending) == NO_ROLES
  {
  }

  /**
   The shadow is always the fold of the confirmed updates.  Until a scalar call happened,
   the native copy is the fold of the confirmed and then the pending ones, so the two
   agree unless a preparation raised after its commit.
   */
  lemma {:induction false} SessionIsLedger(rs: seq<Request>)
    ensures LedgerOk(SessionAfter(rs), LedgerAfter(rs))
    decreases |rs|
  {
    if rs == [] {
      NothingFolded(LedgerAfter(rs));
    } else {
      var init := rs[..|rs| - 1];
      SessionIsLedger(init);
      StepKeepsLedger(SessionAfter(init), LedgerAfter(init), rs[|rs| - 1]);
    }
  }

  /** The test for an unshadowed scalar history can never fire before the flag is set anyway. */
  lemma {:induction false} GuardNeverFires(rs: seq<Request>)
    ensures StaysScalar(SessionAfter(rs)) <==> SessionAfter(rs).disabled
  {
    SessionIsLedger(rs);
  }

  lemma {:induction false} DisabledStays(rs: seq<Request>, n: nat)
    requires n <= |rs| && SessionAfter(rs[..n]).disabled
    ensures SessionAfter(rs).disabled
    decreases |rs|
  {
    if n == |rs| {
      assert rs[..n] == rs;
    } else {
      assert rs[..|rs| - 1][..n] == rs[..n];
      DisabledStays(rs[..|rs| - 1], n);
    }
  }

  /** Every call that ran counts once, and the lock is free between calls. */
  lemma {:induction false} InvocationsAreRuns(rs: seq<Request>)
    ensures SessionAfter(rs).invocations == |Completed(rs)| && !SessionAfter(rs).locked
    decreases |rs|
  {
    if rs != [] {
      InvocationsAreRuns(rs[..|rs| - 1]);
    }
  }

  /** No call is compiled natively after one that was not. */
  lemma {:induction false} NativeRunsComeFirst(rs: seq<Request>, j: nat, k: nat)
    requires j < k < |rs| && OutcomeOf(rs, j).ScalarRun?
    ensures !OutcomeOf(rs, k).NativeRun?
  {
    assert rs[..j + 1][..j] == rs[..j] && rs[..k][..j + 1] == rs[..j + 1];
    SessionIsLedger(rs[..j]);
    DisabledStays(rs[..k], j + 1);
  }

  /** The updates of the calls that ran, in order. */
  ghost function Completed(rs: seq<Request>): seq<Update> {
    if rs == [] then [] else
      var init, last := rs[..|rs| - 1], rs[|rs| - 1];
      Completed(init) + if Ran(Answer(SessionAfter(init), last)) then [last.update] else []
  }

  // ----- preparations that raised after their commit

  /** Call `i` tried native compilation, which committed its roles and raised afterwards. */
  predicate LateAt(rs: seq<Request>, i: nat)
    requires i < |rs|
  {
    TriesNative(SessionAfter(rs[..i]), rs[i]) && rs[i].reply == Raised(true)
  }

  predicate NativeAt(rs: seq<Request>, j: nat)
    requires j < |rs|
  {
    OutcomeOf(rs, j).NativeRun?
  }

  predicate NoLateRaise(rs: seq<Request>) {
    forall i | 0 <= i < |rs| :: !LateAt(rs, i)
  }

  /** No native call ran after a late raise, and so none confirmed what the raising call had committed. */
  predicate NoLateRaiseTaken(rs: seq<Request>) {
    forall i, j | 0 <= i < j < |rs| :: !(LateAt(rs, i) && NativeAt(rs, j))
  }

  /** Every late raise was followed by a native call that ran. */
  ghost predicate EveryLateRaiseTaken(rs: seq<Request>) {
    forall i | 0 <= i < |rs| && LateAt(rs, i) :: exists j | i < j < |rs| :: NativeAt(rs, j)
  }

  lemma {:induction false} SamePast(rs: seq<Request>, i: nat)
    requires rs != [] && i < |rs| - 1
    ensures LateAt(rs[..|rs| - 1], i) == LateAt(rs, i) && NativeAt(rs[..|rs| - 1], i) == NativeAt(rs, i)
  {
    assert rs[..|rs| - 1][..i] == rs[..i];
  }

  lemma {:induction false} LastCall(rs: seq<Request>)
    requires rs != []
    ensures var init, last := rs[..|rs| - 1], |rs| - 1;
      && (NoLateRaise(rs) <==> NoLateRaise(init) && !LateAt(rs, last))
      && (NoLateRaiseTaken(rs) <==> NoLateRaiseTaken(init) && (NativeAt(rs, last) ==> NoLateRaise(init)))
      && (EveryLateRaiseTaken(rs) <==>
            NativeAt(rs, last) || (EveryLateRaiseTaken(init) && !LateAt(rs, last)))
  {
    hide LateAt, NativeAt;
    var init, last := rs[..|rs| - 1], |rs| - 1;
    forall i: nat | i < last ensures LateAt(init, i) == LateAt(rs, i) && NativeAt(init, i) == NativeAt(rs, i) {
      SamePast(rs, i);
    }
    NativeIsNotLate(rs, last);
  }

  lemma {:induction false} NativeIsNotLate(rs: seq<Request>, i: nat)
    requires i < |rs|
    ensures !(LateAt(rs, i) && NativeAt(rs, i))
  {
  }

  /** What the ledger holds beyond the completed calls, and when it holds nothing beyond them. */
  ghost predicate LedgerExact(l: Ledger, completed: seq<Update>, none: bool, noneTaken: bool, allTaken: bool) {
    && (if noneTaken then l.confirmed == completed else |l.confirmed| > |completed|)
    && (if none then l.confirmed == completed && l.pending == []
        else |l.confirmed| + |l.pending| > |completed|)
    && (l.pending == [] <==> allTaken)
  }

  lemma {:induction false} LedgerIsExact(rs: seq<Request>)
    ensures LedgerExact(LedgerAfter(rs), Completed(rs), NoLateRaise(rs), NoLateRaiseTaken(rs), EveryLateRaiseTaken(rs))
    decreases |rs|
  {
    hide NoLateRaise, NoLateRaiseTaken, EveryLateRaiseTaken, SessionAfter, LateAt, NativeAt, LedgerAfter, Completed;
    if rs == [] {
      NoCallsYet();
    } else {
      LedgerIsExact(rs[..|rs| - 1]);
      LastCall(rs);
      LateIsRecorded(rs);
      NativeIsNotLate(rs, |rs| - 1);
      assert forall us: seq<Update> :: us + [] == us;
    }
  }

  lemma {:induction false} NoCallsYet()
    ensures LedgerAfter([]) == Ledger([], []) && Completed([]) == []
    ensures NoLateRaise([]) && NoLateRaiseTaken([]) && EveryLateRaiseTaken([])
  {
  }

  /** How the last call enters the ledger and the list of completed calls. */
  lemma {:induction false} LateIsRecorded(rs: seq<Request>)
    requires rs != []
    ensures var init, last := rs[..|rs| - 1], |rs| - 1;
      var before, after, u := LedgerAfter(init), LedgerAfter(rs), rs[last].update;
      if LateAt(rs, last) then
        after == Ledger(before.confirmed, before.pending + [u]) && Completed(rs) == Completed(init)
      else if NativeAt(rs, last) then
        after == Ledger(before.confirmed + before.pending + [u], []) && Completed(rs) == Completed(init) + [u]
      else if OutcomeOf(rs, last).ScalarRun? then
        after == Ledger(before.confirmed + [u], before.pending) && Completed(rs) == Completed(init) + [u]
      else
        after == before && Completed(rs) == Completed(init)
  {
    SessionIsLedger(rs[..|rs| - 1]);
    hide Fold;
  }

  /**
   Where a call starts, and exactly when that is what the calls that ran before it left: a
   native run needs that no preparation raised late before it, a scalar run that no native
   run took over what such a preparation had committed.
   */
  lemma {:induction false} CallsContinue(rs: seq<Request>, k: nat)
    requires k < |rs|
    ensures var o, l, before := OutcomeOf(rs, k), LedgerAfter(rs[..k]), Completed(rs[..k]);
      && (o.NativeRun? ==>
            && o.start == Fold(l.confirmed + l.pending)
            && (l.confirmed + l.pending == before <==> NoLateRaise(rs[..k])))
      && (o.ScalarRun? ==>
            && o.start == Fold(l.confirmed)
            && (l.confirmed == before <==> NoLateRaiseTaken(rs[..k])))
  {
    hide Fold, NoLateRaise, NoLateRaiseTaken, EveryLateRaiseTaken;
    SessionIsLedger(rs[..k]);
    LedgerIsExact(rs[..k]);
    assert LedgerAfter(rs[..k]).confirmed + [] == LedgerAfter(rs[..k]).confirmed;
  }

  /**
   While native compilation is possible, shadow and native copy hold the same updates
   exactly when every late raise was followed by a native call that ran.
   */
  lemma {:induction false} ShadowMeetsNative(rs: seq<Request>)
    requires !SessionAfter(rs).disabled
    ensures var s, l := SessionAfter(rs), LedgerAfter(rs);
      && s.shadow == Fold(l.confirmed) && NativeStart(s) == Fold(l.confirmed + l.pending)
      && (l.confirmed == l.confirmed + l.pending <==> EveryLateRaiseTaken(rs))
  {
    hide Fold, NoLateRaise, NoLateRaiseTaken, EveryLateRaiseTaken;
    SessionIsLedger(rs);
    LedgerIsExact(rs);
    var l := LedgerAfter(rs);
    assert l.confirmed + [] == l.confirmed;
    assert |l.confirmed + l.pending| == |l.confirmed| + |l.pending|;
  }

  /** In general a native run starts from the pending commits too, and a scalar run without them. */
  lemma {:induction false} WhereCallsStart(rs: seq<Request>, k: nat)
    requires k < |rs|
    ensures var o, l := OutcomeOf(rs, k), LedgerAfter(rs[..k]);
      && (o.NativeRun? ==> o.start == Fold(l.confirmed + l.pending))
      && (o.ScalarRun? ==> o.start == Fold(l.confirmed))
  {
    SessionIsLedger(rs[..k]);
  }

  /** A late raise does happen, and shows: after it the next native call sees an update of no completed call. */
  lemma {:induction false} LateRaiseShows(u: Update)
    requires u(NO_ROLES) != NO_ROLES
    ensures var rs := [Request(u, true, true, Raised(true), true), Request(u, true, true, Compiled, true)];
      && Completed(rs[..1]) == []
      && OutcomeOf(rs, 1) == NativeRun(u(NO_ROLES))
      && OutcomeOf(rs, 1).start != Fold(Completed(rs[..1]))
  {
    var first := Request(u, true, true, Raised(true), true);
    var rs := [first, Request(u, true, true, Compiled, true)];
    assert rs[..1] == [first] && [first][..0] == [];
    assert SessionAfter([]) == FRESH;
    assert SessionAfter([first]) == Session(NO_ROLES, Some(u(NO_ROLES)), false, 0, false);
    assert Completed([]) == [];
  }
}
