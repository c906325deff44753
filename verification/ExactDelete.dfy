// Digest-bound deletion of one approved generated directory, as a transition system: any number of
// executors of the same approval, a crash or refusal after any step, Cargo builders competing for
// the profile locks, and an environment that may replace the candidate at any time.

module ExactDelete {
  import opened Wrappers

  type Executor = nat

  /** File-system identity of a directory: which directory it is, and its modification stamp. */
  datatype Identity = Identity(directory: nat, modified: nat)

  /** A directory tree: its identity, how many entries it holds, and its other measured metrics. */
  datatype Tree = Tree(identity: Identity, entries: nat, metrics: nat)

  datatype Approval = Approval(tree: Tree, target: bool)

  datatype Phase =
    | Starting
    | Waiting(recovered: bool)    // preflight passed, protection guard not yet held
    | Guarded(recovered: bool)    // protection guard held
    | Locked(recovered: bool)     // ... and the Cargo locks, when they are needed
    | Identified(recovered: bool) // live identity equals the approved one
    | Measured(recovered: bool)   // live measurement equals the approved one
    | Renamed                     // candidate moved to quarantine, not yet verified
    | Removing(recovered: bool)   // recursive removal of the quarantine in progress
    | Removed(recovered: bool)    // quarantine gone, guard still held
    | Released
    | Succeeded
    | Stopped                     // refused, failed or crashed

  datatype Holder = Run(e: Executor) | Builder(b: nat)

  datatype State = State(
    candidate: Option<Tree>,
    quarantine: Option<Tree>,
    guard: Option<Executor>,
    locks: Option<Holder>,
    phases: map<Executor, Phase>,
    destroyed: set<nat>,
    renames: nat)

  datatype Label =
    | Start(e: Executor)
    | Preflight(e: Executor)
    | TakeGuard(e: Executor)
    | TakeLocks(e: Executor)
    | Identify(e: Executor)
    | Measure(e: Executor)
    | Rename(e: Executor)
    | Verify(e: Executor)
    | Resume(e: Executor)
    | RemoveEntry(e: Executor, left: Tree)
    | RemoveRoot(e: Executor)
    | Release(e: Executor)
    | Finish(e: Executor)
    | Stop(e: Executor)
    | BuilderLocks(b: nat)
    | BuilderUnlocks(b: nat)
    | Environment(candidate: Option<Tree>, gone: set<nat>)

  /** A fresh removal of a Cargo target needs the Cargo profile locks; a recovered one does not. */
  predicate NeedsLocks(a: Approval, recovered: bool) {
    a.target && !recovered
  }

  predicate At(s: State, e: Executor, phase: Phase) {
    e in s.phases && s.phases[e] == phase
  }

  function Active(s: State, recovered: bool): Option<Tree> {
    if recovered then s.quarantine else s.candidate
  }

  function To(s: State, e: Executor, phase: Phase): State {
    s.(phases := s.phases[e := phase])
  }

  /** Leaving the guarded section, by return or by crash, frees whatever the executor holds. */
  function Freed(s: State, e: Executor): State {
    s.(guard := if s.guard == Some(e) then None else s.guard,
    locks := if s.locks == Some(Run(e)) then None else s.locks)
  }

  predicate Terminal(phase: Phase) {
    phase.Succeeded? || phase.Stopped?
  }

  predicate Step(a: Approval, s: State, l: Label, s': State) {
    match l
    case Start(e) =>
      e !in s.phases && s' == To(s, e, Starting)
    case Preflight(e) =>
      && At(s, e, Starting)
      && (s.candidate.Some? <==> s.quarantine.None?)
      && s' == To(s, e, Waiting(s.quarantine.Some?))
    case TakeGuard(e) =>
      && e in s.phases && s.phases[e].Waiting? && s.guard.None?
      && s' == To(s, e, Guarded(s.phases[e].recovered)).(guard := Some(e))
    case TakeLocks(e) =>
      && e in s.phases && s.phases[e].Guarded?
      && var r := s.phases[e].recovered;
      if NeedsLocks(a, r) then s.locks.None? && s' == To(s, e, Locked(r)).(locks := Some(Run(e)))
      else s' == To(s, e, Locked(r))
    case Identify(e) =>
      && e in s.phases && s.phases[e].Locked?
      && var r := s.phases[e].recovered;
      && Active(s, r).Some? && Active(s, r).value.identity == a.tree.identity
      && s' == To(s, e, Identified(r))
    case Measure(e) =>
      && e in s.phases && s.phases[e].Identified?
      && var r := s.phases[e].recovered;
      && Active(s, r).Some?
      && Active(s, r).value.entries == a.tree.entries && Active(s, r).value.metrics == a.tree.metrics
      && s' == To(s, e, Measured(r))
    case Rename(e) =>
      && At(s, e, Measured(false)) && s.quarantine.None? && s.candidate.Some?
      && s' == To(s, e, Renamed).(candidate := None, quarantine := s.candidate, renames := s.renames + 1)
    case Verify(e) =>
      && At(s, e, Renamed) && s.quarantine.Some? && s.quarantine.value.identity == a.tree.identity
      && s' == To(s, e, Removing(false))
    case Resume(e) =>
      At(s, e, Measured(true)) && s' == To(s, e, Removing(true))
    case RemoveEntry(e, left) =>
      && e in s.phases && s.phases[e].Removing? && s.quarantine.Some? && s.quarantine.value.entries > 0
      && left.entries == s.quarantine.value.entries - 1
      && left.identity.directory == s.quarantine.value.identity.directory
      && s' == s.(quarantine := Some(left))
    case RemoveRoot(e) =>
      && e in s.phases && s.phases[e].Removing? && s.quarantine.Some? && s.quarantine.value.entries == 0
      && s' == To(s, e, Removed(s.phases[e].recovered)).(
               quarantine := None, destroyed := s.destroyed + {s.quarantine.value.identity.directory})
    case Release(e) =>
      e in s.phases && s.phases[e].Removed? && s' == To(Freed(s, e), e, Released)
    case Finish(e) =>
      At(s, e, Released) && s.candidate.None? && s.quarantine.None? && s' == To(s, e, Succeeded)
    case Stop(e) =>
      e in s.phases && !Terminal(s.phases[e]) && s' == To(Freed(s, e), e, Stopped)
    case BuilderLocks(b) =>
      s.locks.None? && s' == s.(locks := Some(Builder(b)))
    case BuilderUnlocks(b) =>
      s.locks == Some(Builder(b)) && s' == s.(locks := None)
    case Environment(c, gone) =>
      // a directory is in one place at a time, and a destroyed one never comes back
      && (c.Some? ==> c.value.identity.directory !in s.destroyed + gone)
      && (c.Some? && s.quarantine.Some? ==> c.value.identity.directory != s.quarantine.value.identity.directory)
      && (s.quarantine.Some? ==> s.quarantine.value.identity.directory !in gone)
      && s' == s.(candidate := c, destroyed := s.destroyed + gone)
  }

  /** No run of the approval has begun; nothing is known about the candidate. */
  predicate Initial(s: State) {
    && s.quarantine.None? && s.guard.None? && s.phases == map[] && s.renames == 0
    && !(s.locks.Some? && s.locks.value.Run?)
    && (s.candidate.Some? ==> s.candidate.value.identity.directory !in s.destroyed)
  }

  // ---- the invariant ----

  predicate InGuard(phase: Phase) {
    phase.Guarded? || phase.Locked? || phase.Identified? || phase.Measured?
    || phase.Renamed? || phase.Removing? || phase.Removed?
  }

  predicate PastRemoval(phase: Phase) {
    phase.Removed? || phase.Released? || phase.Succeeded?
  }

  predicate Original(a: Approval, t: Tree) {
    t.identity.directory == a.tree.identity.directory
  }

  /** What an executor's phase says about the disk and the locks it relies on. */
  predicate PhaseOk(a: Approval, s: State, e: Executor)
    requires e in s.phases
  {
    var phase := s.phases[e];
    && (InGuard(phase) ==> s.guard == Some(e))
    && (phase == Identified(true) || phase == Measured(true) ==>
          s.quarantine.Some? && s.quarantine.value.identity == a.tree.identity)
    && (phase == Measured(true) ==> s.quarantine == Some(a.tree))
    && (phase == Identified(false) || phase == Measured(false) ==> s.renames > 0 ==> s.quarantine.Some?)
    && (phase.Renamed? || phase.Removing? ==> s.quarantine.Some?)
    && (phase.Removing? ==> Original(a, s.quarantine.value))
    && (PastRemoval(phase) ==> a.tree.identity.directory in s.destroyed && s.quarantine.None? && s.renames > 0)
    && ((phase.Renamed? || phase.Removing?) ==> s.renames > 0)
  }

  /** Facts about the disk alone. */
  predicate DiskOk(a: Approval, s: State) {
    && (s.quarantine.Some? ==> s.quarantine.value.identity.directory !in s.destroyed)
    && (s.candidate.Some? ==> s.candidate.value.identity.directory !in s.destroyed)
    && (s.candidate.Some? && s.quarantine.Some? ==>
          s.candidate.value.identity.directory != s.quarantine.value.identity.directory)
    && (s.renames > 0 ==> s.quarantine.Some? || a.tree.identity.directory in s.destroyed)
    && (s.renames == 0 ==> s.quarantine.None?)
    && s.renames <= 1
  }

  predicate OneRemover(s: State) {
    forall e, f | e in s.phases && f in s.phases && PastRemoval(s.phases[e]) && PastRemoval(s.phases[f]) :: e == f
  }

  predicate Inv(a: Approval, s: State) {
    && (forall e | e in s.phases :: PhaseOk(a, s, e))
    && (s.guard.Some? ==> s.guard.value in s.phases && InGuard(s.phases[s.guard.value]))
    && DiskOk(a, s)
    && OneRemover(s)
  }

  lemma InitialInv(a: Approval, s: State)
    requires Initial(s)
    ensures Inv(a, s)
  {
  }

  /** An executor moves to another phase and nothing else changes. */
  lemma PhaseMove(a: Approval, s: State, e: Executor, phase: Phase)
    requires Inv(a, s) && PhaseOk(a, To(s, e, phase), e)
    requires s.guard == Some(e) <==> InGuard(phase)
    requires PastRemoval(phase) ==> e in s.phases && PastRemoval(s.phases[e])
    ensures Inv(a, To(s, e, phase))
  {
    forall f | f in To(s, e, phase).phases ensures PhaseOk(a, To(s, e, phase), f) {
      assert f != e ==> PhaseOk(a, s, f);
    }
  }

  /** Only the shared part changes, in a way every executor's phase allows. */
  lemma SharedMove(a: Approval, s: State, s': State)
    requires Inv(a, s) && s'.phases == s.phases && s'.guard == s.guard && DiskOk(a, s')
    requires forall e | e in s.phases && PhaseOk(a, s, e) :: PhaseOk(a, s', e)
    ensures Inv(a, s')
  {
  }

  /** The guard holder changes the disk; executors outside the guard depend on it only past a removal. */
  lemma GuardedMove(a: Approval, s: State, s': State, e: Executor)
    requires Inv(a, s) && e in s.phases && s.guard == Some(e) == s'.guard
    requires e in s'.phases && s'.phases == s.phases[e := s'.phases[e]]
    requires InGuard(s'.phases[e]) && PhaseOk(a, s', e) && DiskOk(a, s')
    requires forall f | f in s.phases && f != e :: !PastRemoval(s.phases[f])
    ensures Inv(a, s')
  {
    forall f | f in s'.phases ensures PhaseOk(a, s', f) {
      assert f != e ==> PhaseOk(a, s, f);
    }
  }

  lemma OthersNotPast(a: Approval, s: State, e: Executor)
    requires Inv(a, s) && (s.renames == 0 || s.quarantine.Some?)
    ensures forall f | f in s.phases :: !PastRemoval(s.phases[f])
  {
    forall f | f in s.phases ensures !PastRemoval(s.phases[f]) {
      assert PhaseOk(a, s, f);
    }
  }

  /** Release and Stop. */
  lemma LeaveGuard(a: Approval, s: State, e: Executor, phase: Phase)
    requires Inv(a, s) && e in s.phases
    requires phase == Stopped || (phase == Released && s.phases[e].Removed?)
    ensures Inv(a, To(Freed(s, e), e, phase))
  {
    var s' := To(Freed(s, e), e, phase);
    assert PhaseOk(a, s, e);
    forall f | f in s'.phases ensures PhaseOk(a, s', f) {
      assert PhaseOk(a, s, f);
    }
  }

  lemma StepInv(a: Approval, s: State, l: Label, s': State)
    requires Inv(a, s) && Step(a, s, l, s')
    ensures Inv(a, s')
  {
    hide Inv;
    match l
    case Start(e) =>
      StartInv(a, s, l, s');
    case Preflight(e) =>
      MoveInv(a, s, l, s', e);
    case TakeGuard(e) =>
      TakeGuardInv(a, s, l, s');
    case TakeLocks(e) =>
      TakeLocksInv(a, s, l, s');
    case Identify(e) =>
      MoveInv(a, s, l, s', e);
    case Measure(e) =>
      MoveInv(a, s, l, s', e);
    case Rename(e) =>
      DiskInv(a, s, l, s', e);
    case Verify(e) =>
      MoveInv(a, s, l, s', e);
    case Resume(e) =>
      MoveInv(a, s, l, s', e);
    case RemoveEntry(e, _) =>
      DiskInv(a, s, l, s', e);
    case RemoveRoot(e) =>
      DiskInv(a, s, l, s', e);
    case Release(e) =>
      LeaveGuard(a, s, e, Released);
    case Finish(e) =>
      MoveInv(a, s, l, s', e);
    case Stop(e) =>
      LeaveGuard(a, s, e, Stopped);
    case BuilderLocks(_) =>
      OutsideInv(a, s, l, s');
    case BuilderUnlocks(_) =>
      OutsideInv(a, s, l, s');
    case Environment(_, _) =>
      OutsideInv(a, s, l, s');
  }

  lemma StartInv(a: Approval, s: State, l: Label, s': State)
    requires Inv(a, s) && l.Start? && Step(a, s, l, s')
    ensures Inv(a, s')
  {
    PhaseMove(a, s, l.e, Starting);
  }

  lemma MoveInv(a: Approval, s: State, l: Label, s': State, e: Executor)
    requires Inv(a, s) && Step(a, s, l, s')
    requires (l.Preflight? || l.Identify? || l.Measure? || l.Verify? || l.Resume? || l.Finish?) && l.e == e
    ensures Inv(a, s')
  {
    assert PhaseOk(a, s, e);
    PhaseMove(a, s, e, s'.phases[e]);
  }

  lemma TakeGuardInv(a: Approval, s: State, l: Label, s': State)
    requires Inv(a, s) && l.TakeGuard? && Step(a, s, l, s')
    ensures Inv(a, s')
  {
    forall f | f in s'.phases ensures PhaseOk(a, s', f) {
      assert f in s.phases && PhaseOk(a, s, f);
    }
  }

  lemma TakeLocksInv(a: Approval, s: State, l: Label, s': State)
    requires Inv(a, s) && l.TakeLocks? && Step(a, s, l, s')
    ensures Inv(a, s')
  {
    forall f | f in s'.phases ensures PhaseOk(a, s', f) {
      assert f in s.phases && PhaseOk(a, s, f);
    }
  }

  /** The three steps that change the disk. */
  lemma DiskInv(a: Approval, s: State, l: Label, s': State, e: Executor)
    requires Inv(a, s) && Step(a, s, l, s')
    requires (l.Rename? || l.RemoveEntry? || l.RemoveRoot?) && l.e == e
    ensures Inv(a, s')
  {
    assert PhaseOk(a, s, e);
    OthersNotPast(a, s, e);
    GuardedMove(a, s, s', e);
  }

  /** Builders and the environment. */
  lemma OutsideInv(a: Approval, s: State, l: Label, s': State)
    requires Inv(a, s) && Step(a, s, l, s') && (l.BuilderLocks? || l.BuilderUnlocks? || l.Environment?)
    ensures Inv(a, s')
  {
    SharedMove(a, s, s');
  }

  // ---- runs ----

  /** A finite run: each state follows from the one before by some step. */
  ghost predicate Behaviour(a: Approval, b: seq<State>) {
    b != [] && forall i {:trigger b[i]} | 0 < i < |b| :: Follows(a, b[i - 1], b[i])
  }

  ghost predicate Follows(a: Approval, s: State, s': State) {
    exists l :: Step(a, s, l, s')
  }

  lemma StepTo(a: Approval, b: seq<State>, k: nat) returns (l: Label)
    requires Behaviour(a, b) && 0 < k < |b|
    ensures Step(a, b[k - 1], l, b[k])
  {
    hide Step;
    assert Follows(a, b[k - 1], b[k]);
    l :| Step(a, b[k - 1], l, b[k]);
  }

  /** Every state of every run from an initial state satisfies the invariant. */
  lemma {:induction false} BehaviourInv(a: Approval, b: seq<State>, i: nat)
    requires Behaviour(a, b) && Initial(b[0]) && i < |b|
    ensures Inv(a, b[i])
  {
    if i == 0 {
      InitialInv(a, b[0]);
    } else {
      BehaviourInv(a, b, i - 1);
      var l := StepTo(a, b, i);
      StepInv(a, b[i - 1], l, b[i]);
    }
  }

  // ---- only the approved directory is removed ----

  /** A change of an occupied quarantine is a removal step of the guard holder on the approved directory. */
  lemma RemovalIsApproved(a: Approval, s: State, l: Label, s': State)
    requires Inv(a, s) && Step(a, s, l, s') && s.quarantine.Some? && s'.quarantine != s.quarantine
    ensures l.RemoveEntry? || l.RemoveRoot?
    ensures s.guard == Some(l.e) && s.phases[l.e].Removing?
    ensures Original(a, s.quarantine.value)
  {
    match l
    case RemoveEntry(e, _) => assert PhaseOk(a, s, e);
    case RemoveRoot(e) => assert PhaseOk(a, s, e);
    case _ =>
  }

  /**
   * A removal begins only on a tree with exactly the approved identity; a recovered one also with the approved
   * measurement.
   */
  lemma RemovalBegins(a: Approval, s: State, l: Label, s': State, e: Executor)
    requires Inv(a, s) && Step(a, s, l, s') && e in s'.phases && s'.phases[e].Removing?
    requires !(e in s.phases && s.phases[e].Removing?)
    ensures s.quarantine.Some? && s.quarantine.value.identity == a.tree.identity && s'.quarantine == s.quarantine
    ensures s'.phases[e].recovered ==> s.quarantine.value == a.tree
  {
    assert l.Verify? || l.Resume?;
    assert PhaseOk(a, s, e);
  }

  /**
   * In every run, whatever is removed from the quarantine is the approved directory, and its remover holds the guard.
   */
  lemma OnlyApprovedIsRemoved(a: Approval, b: seq<State>, i: nat) returns (e: Executor)
    requires Behaviour(a, b) && Initial(b[0]) && 0 < i < |b|
    requires b[i - 1].quarantine.Some? && b[i].quarantine != b[i - 1].quarantine
    ensures Original(a, b[i - 1].quarantine.value)
    ensures b[i - 1].guard == Some(e) && e in b[i - 1].phases && b[i - 1].phases[e].Removing?
    ensures b[i].quarantine.Some? ==> Original(a, b[i].quarantine.value)
  {
    hide Inv, Step;
    BehaviourInv(a, b, i - 1);
    BehaviourInv(a, b, i);
    var l := StepTo(a, b, i);
    RemovalIsApproved(a, b[i - 1], l, b[i]);
    e := l.e;
    RemoverStays(a, b[i - 1], l, b[i]);
  }

  lemma RemoverStays(a: Approval, s: State, l: Label, s': State)
    requires Step(a, s, l, s') && (l.RemoveEntry? || l.RemoveRoot?) && s.quarantine.Some?
    requires Original(a, s.quarantine.value)
    ensures s'.quarantine.Some? ==> Original(a, s'.quarantine.value)
  {
  }

  /** The quarantine holds something that is not the approved tree, and nobody is removing it. */
  predicate Abandoned(a: Approval, s: State) {
    && s.quarantine.Some?
    && s.quarantine.value != a.tree
    && (forall e | e in s.phases :: !s.phases[e].Removing?)
    && (forall e | e in s.phases && s.phases[e].Renamed? :: s.quarantine.value.identity != a.tree.identity)
  }

  /** A substitute swept up by the rename is abandoned at once. */
  lemma SubstituteIsAbandoned(a: Approval, s: State, e: Executor, s': State)
    requires Inv(a, s) && Step(a, s, Rename(e), s') && s.candidate.value.identity != a.tree.identity
    ensures Abandoned(a, s')
  {
    forall f | f in s.phases ensures !s.phases[f].Removing? {
      assert PhaseOk(a, s, f) && PhaseOk(a, s, e);
    }
  }

  lemma AbandonedStep(a: Approval, s: State, l: Label, s': State)
    requires Inv(a, s) && Abandoned(a, s) && Step(a, s, l, s')
    ensures Abandoned(a, s') && s'.quarantine == s.quarantine
  {
    forall e | e in s.phases ensures s.phases[e] != Measured(true) {
      assert PhaseOk(a, s, e);
    }
  }

  /** What is abandoned is never touched again, by this run or any later run of the approval. */
  lemma {:induction false} AbandonedForever(a: Approval, b: seq<State>, i: nat, j: nat)
    requires Behaviour(a, b) && Initial(b[0]) && i <= j < |b| && Abandoned(a, b[i])
    ensures Abandoned(a, b[j]) && b[j].quarantine == b[i].quarantine
    decreases j
  {
    if i < j {
      AbandonedForever(a, b, i, j - 1);
      BehaviourInv(a, b, j - 1);
      var l := StepTo(a, b, j);
      AbandonedStep(a, b[j - 1], l, b[j]);
    }
  }

  /** At most one rename happens in a whole run, and at most one executor succeeds. */
  lemma OneRenameOneSuccess(a: Approval, b: seq<State>, i: nat)
    requires Behaviour(a, b) && Initial(b[0]) && i < |b|
    ensures b[i].renames <= 1
    ensures forall e, f | At(b[i], e, Succeeded) && At(b[i], f, Succeeded) :: e == f
    ensures forall e | At(b[i], e, Succeeded) ::
      b[i].renames == 1 && a.tree.identity.directory in b[i].destroyed && b[i].quarantine.None?
  {
    BehaviourInv(a, b, i);
    forall e | At(b[i], e, Succeeded) ensures PhaseOk(a, b[i], e) {
    }
  }

  // ---- Cargo locks ----

  /** From the last revalidation to the end of the removal. */
  predicate InCriticalSection(phase: Phase, recovered: bool) {
    || phase == Locked(recovered) || phase == Identified(recovered) || phase == Measured(recovered)
    || (phase.Renamed? && !recovered) || phase == Removing(recovered) || phase == Removed(recovered)
  }

  predicate LocksOk(a: Approval, s: State) {
    forall e | e in s.phases && a.target && InCriticalSection(s.phases[e], false) :: s.locks == Some(Run(e))
  }

  lemma LocksStep(a: Approval, s: State, l: Label, s': State)
    requires Inv(a, s) && LocksOk(a, s) && Step(a, s, l, s')
    ensures LocksOk(a, s')
  {
    hide Inv;
    GuardAlone(a, s);
    forall e | e in s'.phases && a.target && InCriticalSection(s'.phases[e], false)
      ensures s'.locks == Some(Run(e))
    {
      LockKept(a, s, l, s', e);
    }
  }

  lemma GuardAlone(a: Approval, s: State)
    requires Inv(a, s)
    ensures forall e | e in s.phases && InGuard(s.phases[e]) :: s.guard == Some(e)
  {
    forall e | e in s.phases ensures InGuard(s.phases[e]) ==> s.guard == Some(e) {
      assert PhaseOk(a, s, e);
    }
  }

  lemma LockKept(a: Approval, s: State, l: Label, s': State, e: Executor)
    requires (forall f | f in s.phases && InGuard(s.phases[f]) :: s.guard == Some(f)) && LocksOk(a, s)
    requires Step(a, s, l, s') && e in s'.phases && a.target && InCriticalSection(s'.phases[e], false)
    ensures s'.locks == Some(Run(e))
  {
  }

  /** A fresh removal of a target runs, from revalidation to its end, inside one interval of held locks. */
  lemma {:induction false} LocksHeldThroughout(a: Approval, b: seq<State>, i: nat)
    requires Behaviour(a, b) && Initial(b[0]) && i < |b|
    ensures LocksOk(a, b[i])
  {
    if i > 0 {
      LocksHeldThroughout(a, b, i - 1);
      BehaviourInv(a, b, i - 1);
      var l := StepTo(a, b, i);
      LocksStep(a, b[i - 1], l, b[i]);
    }
  }

  predicate InFreshSection(a: Approval, s: State, e: Executor) {
    e in s.phases && a.target && InCriticalSection(s.phases[e], false)
  }

  lemma HolderBefore(a: Approval, s: State, l: Label, s': State, e: Executor)
    requires Step(a, s, l, s') && s'.locks == Some(Run(e))
    requires s.locks == Some(Run(e)) ==> InFreshSection(a, s, e)
    ensures InFreshSection(a, s', e)
  {
  }

  /** Only the fresh removal of a target ever holds the locks, and only inside its critical section. */
  lemma {:induction false} LocksOnlyThere(a: Approval, b: seq<State>, i: nat, e: Executor)
    requires Behaviour(a, b) && Initial(b[0]) && i < |b|
    ensures b[i].locks == Some(Run(e)) ==> InFreshSection(a, b[i], e)
  {
    if i > 0 {
      hide Step, InFreshSection, Behaviour;
      LocksOnlyThere(a, b, i - 1, e);
      var l := StepTo(a, b, i);
      if b[i].locks == Some(Run(e)) { HolderBefore(a, b[i - 1], l, b[i], e); }
    }
  }

  lemma EndStays(a: Approval, s: State, l: Label, s': State, e: Executor)
    requires Step(a, s, l, s') && (At(s, e, Succeeded) || At(s, e, Stopped))
    ensures e in s'.phases && s'.phases[e] == s.phases[e]
  {
  }

  /** An executor that has ended, one way or the other, has ended for good. */
  lemma {:induction false} EndIsFinal(a: Approval, b: seq<State>, j: nat, k: nat, e: Executor, phase: Phase)
    requires Behaviour(a, b) && j <= k < |b| && At(b[j], e, phase) && (phase == Succeeded || phase == Stopped)
    ensures At(b[k], e, phase)
  {
    if j < k {
      hide Step, Behaviour;
      EndIsFinal(a, b, j, k - 1, e, phase);
      var l := StepTo(a, b, k);
      EndStays(a, b[k - 1], l, b[k], e);
    }
  }

  /** An executor enters its critical section only by taking the locks. */
  lemma SectionBefore(a: Approval, s: State, l: Label, s': State, e: Executor)
    requires Step(a, s, l, s') && InFreshSection(a, s', e) && !InFreshSection(a, s, e)
    ensures l == TakeLocks(e) && s.locks.None? && At(s', e, Locked(false)) && s'.locks == Some(Run(e))
  {
  }

  /**
   * The critical section of a fresh target removal is one interval of held locks: they were free just before
   * it, taken at its start, and held in every state from there on.
   */
  lemma {:induction false} LockInterval(a: Approval, b: seq<State>, k: nat, e: Executor) returns (j: nat)
    requires Behaviour(a, b) && Initial(b[0]) && k < |b| && InFreshSection(a, b[k], e)
    ensures 0 < j <= k && b[j - 1].locks.None? && At(b[j], e, Locked(false))
    ensures forall i | j <= i <= k :: InFreshSection(a, b[i], e) && b[i].locks == Some(Run(e))
  {
    hide Step, InFreshSection, LocksOk, Behaviour;
    LocksAt(a, b, k, e);
    if k == 0 {
      NotAtFirst(a, b[0], e);
    } else {
      var l := StepTo(a, b, k);
      if InFreshSection(a, b[k - 1], e) {
        j := LockInterval(a, b, k - 1, e);
      } else {
        SectionBefore(a, b[k - 1], l, b[k], e);
        j := k;
      }
    }
  }

  lemma NotAtFirst(a: Approval, s: State, e: Executor)
    requires Initial(s)
    ensures !InFreshSection(a, s, e)
  {
  }

  lemma LocksAt(a: Approval, b: seq<State>, k: nat, e: Executor)
    requires Behaviour(a, b) && Initial(b[0]) && k < |b| && InFreshSection(a, b[k], e)
    ensures b[k].locks == Some(Run(e))
  {
    LocksHeldThroughout(a, b, k);
  }

  // ---- what a fresh removal was approved on ----

  /** What was seen of the candidate on the way to its rename. */
  predicate SawIdentity(a: Approval, s: State) {
    s.candidate.Some? && s.candidate.value.identity == a.tree.identity
  }

  predicate SawMeasurement(a: Approval, s: State) {
    && s.candidate.Some?
    && s.candidate.value.entries == a.tree.entries && s.candidate.value.metrics == a.tree.metrics
  }

  /** From preflight to rename, in order. */
  predicate Preparing(phase: Phase) {
    phase == Locked(false) || phase == Identified(false) || phase == Measured(false)
  }

  predicate PreparingAt(s: State, e: Executor) {
    e in s.phases && Preparing(s.phases[e])
  }

  /** Under the guard, and the locks when the candidate is a target. */
  predicate Protected(a: Approval, s: State, e: Executor) {
    s.guard == Some(e) && (a.target ==> s.locks == Some(Run(e)))
  }

  lemma PreparingIsProtected(a: Approval, b: seq<State>, k: nat, e: Executor)
    requires Behaviour(a, b) && Initial(b[0]) && k < |b| && PreparingAt(b[k], e)
    ensures Protected(a, b[k], e)
  {
    hide Step;
    BehaviourInv(a, b, k);
    LocksHeldThroughout(a, b, k);
    assert PhaseOk(a, b[k], e);
  }

  /** How an executor gets to each of the three phases. */
  lemma PhaseBefore(a: Approval, s: State, l: Label, s': State, e: Executor)
    requires Step(a, s, l, s')
    ensures At(s', e, Measured(false)) && !At(s, e, Measured(false)) ==>
              At(s, e, Identified(false)) && SawMeasurement(a, s)
    ensures At(s', e, Identified(false)) && !At(s, e, Identified(false)) ==>
              At(s, e, Locked(false)) && SawIdentity(a, s)
    ensures At(s', e, Renamed) && !At(s, e, Renamed) ==> At(s, e, Measured(false)) && s'.quarantine == s.candidate
  {
  }

  /** An executor in a phase entered it at some earlier point and has been in it since. */
  lemma {:induction false} PhaseEntered(a: Approval, b: seq<State>, k: nat, e: Executor, phase: Phase)
    returns (j: nat)
    requires Behaviour(a, b) && Initial(b[0]) && k < |b| && At(b[k], e, phase)
    ensures 0 < j <= k && !At(b[j - 1], e, phase) && forall i | j <= i <= k :: At(b[i], e, phase)
  {
    hide Behaviour;
    NobodyYet(b, e);
    if k == 0 {
    } else if At(b[k - 1], e, phase) {
      j := PhaseEntered(a, b, k - 1, e, phase);
    } else {
      j := k;
    }
  }

  lemma NobodyYet(b: seq<State>, e: Executor)
    requires b != [] && Initial(b[0])
    ensures e !in b[0].phases
  {
  }

  /**
   * A fresh removal was approved on what was there: before the rename, and in this order, its executor saw the
   * candidate with the approved identity and then with the approved number of entries and the approved metrics,
   * both while it held the guard, and the locks of a target, without a break up to the rename. If the environment
   * did nothing in between, what was renamed is the approved tree.
   */
  lemma RenameWasApproved(a: Approval, b: seq<State>, k: nat, e: Executor) returns (identified: nat, measured: nat)
    requires Behaviour(a, b) && Initial(b[0]) && 0 < k < |b| && At(b[k], e, Renamed) && !At(b[k - 1], e, Renamed)
    ensures identified < measured < k && SawIdentity(a, b[identified]) && SawMeasurement(a, b[measured])
    ensures forall i | identified <= i < k :: Protected(a, b[i], e)
    ensures b[k].quarantine == b[k - 1].candidate
    ensures (forall i | identified < i < k :: QuietlyFollows(a, b[i - 1], b[i])) ==> b[k].quarantine == Some(a.tree)
  {
    hide Step, Behaviour, Protected, QuietlyFollows, SawIdentity, SawMeasurement;
    var l := StepTo(a, b, k);
    PhaseBefore(a, b[k - 1], l, b[k], e);
    var m := PhaseEntered(a, b, k - 1, e, Measured(false));
    l := StepTo(a, b, m);
    PhaseBefore(a, b[m - 1], l, b[m], e);
    var i := PhaseEntered(a, b, m - 1, e, Identified(false));
    l := StepTo(a, b, i);
    PhaseBefore(a, b[i - 1], l, b[i], e);
    identified, measured := i - 1, m - 1;
    forall x | identified <= x < k ensures PreparingAt(b[x], e) && Protected(a, b[x], e) {
      PreparingIsProtected(a, b, x, e);
    }
    if forall x | identified < x < k :: QuietlyFollows(a, b[x - 1], b[x]) {
      CandidateStays(a, b, identified, measured, e);
      CandidateStays(a, b, identified, k - 1, e);
      SeenIsApproved(a, b[identified], b[measured]);
    }
  }

  lemma SeenIsApproved(a: Approval, s: State, t: State)
    requires SawIdentity(a, s) && SawMeasurement(a, t) && s.candidate == t.candidate
    ensures t.candidate == Some(a.tree)
  {
  }

  /** Without the environment the candidate stays as it is while one executor prepares its rename. */
  lemma {:induction false} CandidateStays(a: Approval, b: seq<State>, i: nat, j: nat, e: Executor)
    requires Behaviour(a, b) && Initial(b[0]) && i <= j < |b|
    requires forall x | i <= x <= j :: PreparingAt(b[x], e)
    requires forall x | i < x <= j :: QuietlyFollows(a, b[x - 1], b[x])
    ensures b[j].candidate == b[i].candidate
    decreases j
  {
    hide Step, Behaviour, Inv;
    if i < j {
      CandidateStays(a, b, i, j - 1, e);
      BehaviourInv(a, b, j - 1);
      assert QuietlyFollows(a, b[j - 1], b[j]);
      var l :| Step(a, b[j - 1], l, b[j]) && !l.Environment?;
      QuietKeepsCandidate(a, b[j - 1], l, b[j], e);
    }
  }

  lemma QuietKeepsCandidate(a: Approval, s: State, l: Label, s': State, e: Executor)
    requires Inv(a, s) && Step(a, s, l, s') && !l.Environment? && PreparingAt(s, e) && PreparingAt(s', e)
    ensures s'.candidate == s.candidate
  {
    if l.Rename? {
      assert PhaseOk(a, s, e) && PhaseOk(a, s, l.e);
    }
  }

  /** Success is declared only when neither the candidate nor the quarantine is there. */
  lemma SuccessMeansGone(a: Approval, b: seq<State>, k: nat, e: Executor)
    requires Behaviour(a, b) && 0 < k < |b| && At(b[k], e, Succeeded) && !At(b[k - 1], e, Succeeded)
    ensures BothGone(b[k])
  {
    var l := StepTo(a, b, k);
  }

  /** An executor starts on exactly one of the two: a candidate for a fresh removal, a quarantine for a recovery. */
  lemma StartsOnOne(a: Approval, b: seq<State>, k: nat, e: Executor, recovered: bool)
    requires Behaviour(a, b) && 0 < k < |b| && At(b[k], e, Waiting(recovered)) && !At(b[k - 1], e, Waiting(recovered))
    ensures if recovered then b[k].quarantine.Some? && b[k].candidate.None?
            else b[k].candidate.Some? && b[k].quarantine.None?
  {
    var l := StepTo(a, b, k);
  }

  // ---- crash recovery ----

  predicate CandidateIntact(a: Approval, s: State) {
    s.candidate == Some(a.tree) && s.quarantine.None?
  }

  predicate QuarantineIntact(a: Approval, s: State) {
    s.candidate.None? && s.quarantine == Some(a.tree)
  }

  predicate QuarantinePartial(a: Approval, s: State) {
    && s.candidate.None? && s.quarantine.Some?
    && Original(a, s.quarantine.value) && s.quarantine.value.entries < a.tree.entries
  }

  predicate BothGone(s: State) {
    s.candidate.None? && s.quarantine.None?
  }

  predicate Recoverable(a: Approval, s: State) {
    CandidateIntact(a, s) || QuarantineIntact(a, s) || QuarantinePartial(a, s) || BothGone(s)
  }

  /** No step of an executor or builder, crashes included, leaves the four states. */
  lemma StepRecoverable(a: Approval, s: State, l: Label, s': State)
    requires Inv(a, s) && Recoverable(a, s) && Step(a, s, l, s') && !l.Environment?
    ensures Recoverable(a, s')
  {
  }

  /** A run in which nobody but executors and builders acts. */
  ghost predicate Undisturbed(a: Approval, b: seq<State>) {
    Behaviour(a, b) && forall i {:trigger b[i]} | 0 < i < |b| :: QuietlyFollows(a, b[i - 1], b[i])
  }

  ghost predicate QuietlyFollows(a: Approval, s: State, s': State) {
    exists l :: Step(a, s, l, s') && !l.Environment?
  }

  lemma QuietStepTo(a: Approval, b: seq<State>, k: nat) returns (l: Label)
    requires Undisturbed(a, b) && 0 < k < |b|
    ensures Step(a, b[k - 1], l, b[k]) && !l.Environment?
  {
    hide Step;
    assert QuietlyFollows(a, b[k - 1], b[k]);
    l :| Step(a, b[k - 1], l, b[k]) && !l.Environment?;
  }

  /** Wherever an undisturbed run on an intact candidate stops, the disk is in one of the four states. */
  lemma {:induction false} FourStates(a: Approval, b: seq<State>, i: nat)
    requires Undisturbed(a, b) && Initial(b[0]) && CandidateIntact(a, b[0]) && i < |b|
    ensures Recoverable(a, b[i])
  {
    if i > 0 {
      FourStates(a, b, i - 1);
      BehaviourInv(a, b, i - 1);
      var l := QuietStepTo(a, b, i);
      StepRecoverable(a, b[i - 1], l, b[i]);
    }
  }

  /** From a partial quarantine or from nothing, no run changes the disk any more. */
  predicate Hopeless(a: Approval, s: State) {
    BothGone(s) || (s.candidate.None? && Abandoned(a, s))
  }

  lemma HopelessStep(a: Approval, s: State, l: Label, s': State)
    requires Inv(a, s) && Hopeless(a, s) && Step(a, s, l, s') && !l.Environment?
    ensures Hopeless(a, s') && s'.candidate == s.candidate && s'.quarantine == s.quarantine
  {
    if Abandoned(a, s) {
      AbandonedStep(a, s, l, s');
    }
  }

  /** A partial quarantine is abandoned as soon as the executor that was removing it is gone. */
  lemma PartialIsHopeless(a: Approval, s: State)
    requires Inv(a, s) && QuarantinePartial(a, s) && s.guard.None?
    ensures Hopeless(a, s)
  {
    forall e | e in s.phases ensures !InGuard(s.phases[e]) {
      assert PhaseOk(a, s, e);
    }
  }

  /** Once a run is left with a partial quarantine or nothing, no later step of any executor changes the disk. */
  lemma {:induction false} HopelessForever(a: Approval, b: seq<State>, i: nat, j: nat)
    requires Undisturbed(a, b) && Initial(b[0]) && i <= j < |b|
    requires BothGone(b[i]) || (QuarantinePartial(a, b[i]) && b[i].guard.None?)
    ensures Hopeless(a, b[j]) && b[j].candidate == b[i].candidate && b[j].quarantine == b[i].quarantine
    decreases j
  {
    hide Inv, Step, Hopeless, QuarantinePartial, Initial;
    BehaviourInv(a, b, i);
    if i == j {
      LeftHopeless(a, b[i]);
    } else {
      HopelessForever(a, b, i, j - 1);
      BehaviourInv(a, b, j - 1);
      var l := QuietStepTo(a, b, j);
      HopelessStep(a, b[j - 1], l, b[j]);
    }
  }

  /** An executor that has not got past comparing the identity, if it began at all. */
  predicate Turned(s: State, e: Executor) {
    e in s.phases ==>
      s.phases[e] in {Starting, Waiting(true), Guarded(true), Locked(true), Identified(true), Stopped}
  }

  lemma TurnedStep(a: Approval, s: State, l: Label, s': State, e: Executor)
    requires Inv(a, s) && Hopeless(a, s) && Turned(s, e) && Step(a, s, l, s') && !l.Environment?
    ensures Turned(s', e)
  {
    assert e in s.phases ==> PhaseOk(a, s, e);
  }

  /** A rerun refuses: no executor started from a partial quarantine or from nothing ever succeeds. */
  lemma {:induction false} RerunRefuses(a: Approval, b: seq<State>, i: nat, j: nat, e: Executor)
    requires Undisturbed(a, b) && Initial(b[0]) && i <= j < |b|
    requires BothGone(b[i]) || (QuarantinePartial(a, b[i]) && b[i].guard.None?)
    requires e !in b[i].phases
    ensures Turned(b[j], e) && !At(b[j], e, Succeeded)
    decreases j
  {
    hide Inv, Step, Hopeless, QuarantinePartial, Initial;
    if i < j {
      RerunRefuses(a, b, i, j - 1, e);
      HopelessForever(a, b, i, j - 1);
      BehaviourInv(a, b, j - 1);
      var l := QuietStepTo(a, b, j);
      TurnedStep(a, b[j - 1], l, b[j], e);
    }
  }

  lemma LeftHopeless(a: Approval, s: State)
    requires Inv(a, s) && (BothGone(s) || (QuarantinePartial(a, s) && s.guard.None?))
    ensures Hopeless(a, s)
  {
    if !BothGone(s) { PartialIsHopeless(a, s); }
  }

  // ---- a rerun finishes ----

  lemma Extend(a: Approval, b: seq<State>, l: Label, s': State)
    requires Behaviour(a, b) && Step(a, b[|b| - 1], l, s')
    ensures Behaviour(a, b + [s']) && (b + [s'])[0] == b[0] && (b + [s'])[|b + [s']| - 1] == s'
  {
    forall i {:trigger (b + [s'])[i]} | 0 < i < |b + [s']| ensures Follows(a, (b + [s'])[i - 1], (b + [s'])[i]) {
      if i < |b| {
        assert Follows(a, b[i - 1], b[i]);
      } else {
        assert Step(a, b[|b| - 1], l, s');
      }
    }
  }

  lemma Alone(a: Approval, s: State)
    ensures Behaviour(a, [s])
  {
  }

  lemma NotEmpty(a: Approval, b: seq<State>)
    requires Behaviour(a, b)
    ensures b != []
  {
  }

  /** The removal in progress can run to its end. */
  lemma {:induction false} RemovalEnds(a: Approval, b: seq<State>, e: Executor, recovered: bool)
    returns (b': seq<State>)
    requires Behaviour(a, b)
    requires var s := b[|b| - 1]; At(s, e, Removing(recovered)) && s.quarantine.Some? && s.guard == Some(e)
    ensures Behaviour(a, b') && b'[0] == b[0]
    ensures var s, t := b[|b| - 1], b'[|b'| - 1];
            && At(t, e, Removed(recovered)) && t.quarantine.None?
            && t.candidate == s.candidate && t.guard == s.guard && t.locks == s.locks
    decreases b[|b| - 1].quarantine.value.entries
  {
    var s := b[|b| - 1];
    var q := s.quarantine.value;
    if q.entries == 0 {
      var t := To(s, e, Removed(recovered)).(quarantine := None, destroyed := s.destroyed + {q.identity.directory});
      Extend(a, b, RemoveRoot(e), t);
      b' := b + [t];
    } else {
      var left := q.(entries := q.entries - 1);
      var t := s.(quarantine := Some(left));
      Extend(a, b, RemoveEntry(e, left), t);
      b' := RemovalEnds(a, b + [t], e, recovered);
    }
  }

  /** The candidate is intact, or for a recovery its quarantine is. */
  predicate Intact(a: Approval, s: State, recovered: bool) {
    if recovered then QuarantineIntact(a, s) else CandidateIntact(a, s)
  }

  /** Where an undisturbed rerun of executor e stands. */
  predicate OnTrack(a: Approval, s: State, e: Executor) {
    if e !in s.phases then s.guard.None? && s.locks.None? && (CandidateIntact(a, s) || QuarantineIntact(a, s))
    else
      match s.phases[e]
      case Starting => s.guard.None? && s.locks.None? && (CandidateIntact(a, s) || QuarantineIntact(a, s))
      case Waiting(r) => s.guard.None? && s.locks.None? && Intact(a, s, r)
      case Guarded(r) => s.locks.None? && Intact(a, s, r)
      case Locked(r) => Intact(a, s, r)
      case Identified(r) => Intact(a, s, r)
      case Measured(r) => Intact(a, s, r)
      case Renamed => QuarantineIntact(a, s)
      case Removing(r) => s.candidate.None? && s.quarantine.Some?
      case Removed(r) => BothGone(s)
      case Released => BothGone(s)
      case Succeeded => BothGone(s)
      case Stopped => false
  }

  /** Steps still to go. */
  function StepsLeft(a: Approval, s: State, e: Executor): nat {
    if e !in s.phases then a.tree.entries + 12
    else
      match s.phases[e]
      case Starting => a.tree.entries + 11
      case Waiting(_) => a.tree.entries + 10
      case Guarded(_) => a.tree.entries + 9
      case Locked(_) => a.tree.entries + 8
      case Identified(_) => a.tree.entries + 7
      case Measured(_) => a.tree.entries + 6
      case Renamed => a.tree.entries + 5
      case Removing(_) => if s.quarantine.Some? then s.quarantine.value.entries + 4 else 4
      case Removed(_) => 3
      case Released => 2
      case Succeeded => 0
      case Stopped => 0
  }

  /** A step of executor e itself that is not a stop. */
  predicate Own(l: Label, e: Executor) {
    !l.BuilderLocks? && !l.BuilderUnlocks? && !l.Environment? && !l.Stop? && l.e == e
  }

  /** Each step of the rerun keeps it on track and brings it closer to the end. */
  lemma OnTrackStep(a: Approval, s: State, l: Label, s': State, e: Executor)
    requires OnTrack(a, s, e) && Step(a, s, l, s') && Own(l, e)
    ensures OnTrack(a, s', e) && StepsLeft(a, s', e) < StepsLeft(a, s, e)
  {
  }

  /** Until it has succeeded, the rerun can go on. */
  lemma OnTrackGoesOn(a: Approval, s: State, e: Executor) returns (l: Label, s': State)
    requires OnTrack(a, s, e) && !At(s, e, Succeeded)
    ensures Own(l, e) && Step(a, s, l, s')
  {
    if e !in s.phases {
      l, s' := Start(e), To(s, e, Starting);
    } else {
      match s.phases[e]
      case Starting =>
        l, s' := Preflight(e), To(s, e, Waiting(s.quarantine.Some?));
      case Waiting(r) =>
        l, s' := TakeGuard(e), To(s, e, Guarded(r)).(guard := Some(e));
      case Guarded(r) =>
        l := TakeLocks(e);
        s' := if NeedsLocks(a, r) then To(s, e, Locked(r)).(locks := Some(Run(e))) else To(s, e, Locked(r));
      case Locked(r) =>
        l, s' := Identify(e), To(s, e, Identified(r));
      case Identified(r) =>
        l, s' := Measure(e), To(s, e, Measured(r));
      case Measured(r) =>
        l, s' := MeasuredStep(s, e, r).0, MeasuredStep(s, e, r).1;
      case Renamed =>
        l, s' := Verify(e), To(s, e, Removing(false));
      case Removing(r) =>
        l, s' := RemovalStep(s, e, r).0, RemovalStep(s, e, r).1;
      case Removed(r) =>
        l, s' := Release(e), To(Freed(s, e), e, Released);
      case Released =>
        l, s' := Finish(e), To(s, e, Succeeded);
    }
  }

  function MeasuredStep(s: State, e: Executor, r: bool): (Label, State) {
    if r then (Resume(e), To(s, e, Removing(true)))
    else (Rename(e), To(s, e, Renamed).(candidate := None, quarantine := s.candidate, renames := s.renames + 1))
  }

  function RemovalStep(s: State, e: Executor, r: bool): (Label, State)
    requires s.quarantine.Some?
  {
    var q := s.quarantine.value;
    if q.entries == 0 then
      (RemoveRoot(e), To(s, e, Removed(r)).(quarantine := None, destroyed := s.destroyed + {q.identity.directory}))
    else
      var left := q.(entries := q.entries - 1);
      (RemoveEntry(e, left), s.(quarantine := Some(left)))
  }

  /** Only executor e acts, and it does not stop. */
  ghost predicate Solo(a: Approval, b: seq<State>, e: Executor) {
    b != [] && forall i {:trigger b[i]} | 0 < i < |b| :: OwnStep(a, b[i - 1], b[i], e)
  }

  ghost predicate OwnStep(a: Approval, s: State, s': State, e: Executor) {
    exists l :: Step(a, s, l, s') && Own(l, e)
  }

  ghost predicate CanGoOn(a: Approval, s: State, e: Executor) {
    exists l, s' :: Step(a, s, l, s') && Own(l, e)
  }

  /**
   * Every rerun finishes: from an intact candidate or an intact quarantine, with the guard and the locks free, an
   * executor that is left alone and does not stop can always go on until it has succeeded, and it gets there
   * within the number of the tree's entries plus twelve steps.
   */
  lemma {:induction false} EveryRerunFinishes(a: Approval, b: seq<State>, e: Executor)
    requires Solo(a, b, e) && e !in b[0].phases && b[0].guard.None? && b[0].locks.None?
    requires CandidateIntact(a, b[0]) || QuarantineIntact(a, b[0])
    ensures OnTrack(a, b[|b| - 1], e) && |b| - 1 + StepsLeft(a, b[|b| - 1], e) <= a.tree.entries + 12
    ensures !At(b[|b| - 1], e, Succeeded) ==> CanGoOn(a, b[|b| - 1], e)
    ensures |b| - 1 == a.tree.entries + 12 ==> At(b[|b| - 1], e, Succeeded)
  {
    hide Step, OnTrack, StepsLeft, Own;
    var last := b[|b| - 1];
    if |b| == 1 {
      FirstOnTrack(a, last, e);
    } else {
      var front := b[..|b| - 1];
      assert front[|front| - 1] == b[|b| - 2];
      EveryRerunFinishes(a, front, e);
      assert OwnStep(a, b[|b| - 2], last, e);
      var l :| Step(a, b[|b| - 2], l, last) && Own(l, e);
      OnTrackStep(a, b[|b| - 2], l, last, e);
    }
    if !At(last, e, Succeeded) {
      var l, s' := OnTrackGoesOn(a, last, e);
      OnTrackStep(a, last, l, s', e);
    }
  }

  lemma FirstOnTrack(a: Approval, s: State, e: Executor)
    requires e !in s.phases && s.guard.None? && s.locks.None? && (CandidateIntact(a, s) || QuarantineIntact(a, s))
    ensures OnTrack(a, s, e) && StepsLeft(a, s, e) == a.tree.entries + 12
  {
  }

  /** From an intact candidate or an intact quarantine a new run of the approval can finish the deletion. */
  lemma RerunFinishes(a: Approval, s: State, e: Executor) returns (b: seq<State>)
    requires CandidateIntact(a, s) || QuarantineIntact(a, s)
    requires s.guard.None? && s.locks.None? && e !in s.phases
    ensures Behaviour(a, b) && b[0] == s
    ensures At(b[|b| - 1], e, Succeeded) && BothGone(b[|b| - 1])
  {
    hide Behaviour;
    var r := s.quarantine.Some?;
    b := [s];
    Alone(a, s);
    var t := To(s, e, Starting);
    Extend(a, b, Start(e), t);
    b := b + [t];
    t := To(t, e, Waiting(r));
    Extend(a, b, Preflight(e), t);
    b := b + [t];
    t := To(t, e, Guarded(r)).(guard := Some(e));
    Extend(a, b, TakeGuard(e), t);
    b := b + [t];
    t := if NeedsLocks(a, r) then To(t, e, Locked(r)).(locks := Some(Run(e))) else To(t, e, Locked(r));
    Extend(a, b, TakeLocks(e), t);
    b := b + [t];
    b := RerunFromLocked(a, b, e, r);
    NotEmpty(a, b);
    t := b[|b| - 1];
    var u := To(Freed(t, e), e, Released);
    Extend(a, b, Release(e), u);
    b := b + [u];
    t := To(u, e, Succeeded);
    Extend(a, b, Finish(e), t);
    b := b + [t];
  }

  lemma RerunFromLocked(a: Approval, b: seq<State>, e: Executor, r: bool) returns (b': seq<State>)
    requires Behaviour(a, b)
    requires var s := b[|b| - 1];
             && At(s, e, Locked(r)) && s.guard == Some(e)
             && (if r then QuarantineIntact(a, s) else CandidateIntact(a, s))
    ensures Behaviour(a, b') && b'[0] == b[0]
    ensures At(b'[|b'| - 1], e, Removed(r)) && BothGone(b'[|b'| - 1])
  {
    hide Behaviour;
    NotEmpty(a, b);
    var t := To(b[|b| - 1], e, Identified(r));
    Extend(a, b, Identify(e), t);
    b' := b + [t];
    t := To(t, e, Measured(r));
    Extend(a, b', Measure(e), t);
    b' := b' + [t];
    if r {
      t := To(t, e, Removing(true));
      Extend(a, b', Resume(e), t);
      b' := b' + [t];
    } else {
      t := To(t, e, Renamed).(candidate := None, quarantine := t.candidate, renames := t.renames + 1);
      Extend(a, b', Rename(e), t);
      b' := b' + [t];
      t := To(t, e, Removing(false));
      Extend(a, b', Verify(e), t);
      b' := b' + [t];
    }
    b' := RemovalEnds(a, b', e, r);
  }

  /** A first run on an intact candidate can go all the way. */
  lemma FirstRunFinishes(a: Approval, e: Executor) returns (b: seq<State>)
    ensures Behaviour(a, b) && Initial(b[0]) && b[0].candidate == Some(a.tree)
    ensures At(b[|b| - 1], e, Succeeded) && BothGone(b[|b| - 1]) && b[|b| - 1].renames == 1
  {
    var s := State(Some(a.tree), None, None, None, map[], {}, 0);
    b := RerunFinishes(a, s, e);
    OneRenameOneSuccess(a, b, |b| - 1);
  }
}
