/** The capture arena under arbitrarily many threads. A thread is between two
    locked sections while it runs a hook; anything may happen meanwhile. The
    hooks stay registered and the arena is not initialised again. */
module ArenaThreads {
  import opened Common
  import opened CaptureArena

  /** Where a thread that is inside a call stands. */
  datatype Pc =
    | ToQuiesce(lease: Lease)
    | ToConfirm(lease: Lease, ret: int, hookCalled: bool)
    | ToResume(lease: Lease, resume: bool)
    | InResume(lease: Lease)
    | ToFinish(lease: Lease)

  type Thread = nat

  /** `issued` holds every lease handed to a caller, `quiesces` and `resumes`
      count the hook calls. */
  datatype System = System(a: Arena, pcs: map<Thread, Pc>, issued: set<Lease>,
                           quiesces: nat, resumes: nat)

  datatype Action =
    | Acquire(t: Thread, session: nat)
    | Reserve(t: Thread, session: nat)
    | Quiesce(t: Thread, ret: int)
    | Confirm(t: Thread)
    | Mark(t: Thread, lease: Lease, from: Phase, to: Phase)
    | Release(t: Thread, lease: Lease)
    | Resume(t: Thread)
    | LeaveHook(t: Thread)
    | Finish(t: Thread)
    | Corrupt

  datatype Registered = Registered(quiesce: bool, resume: bool)

  const START := System(Arena(NoOwner, Idle, 0, 1, false, false, true), map[], {}, 0, 0)

  /** A thread outside any call may start one; it uses leases that were issued
      to some thread. A thread inside a call continues it. */
  predicate Enabled(s: System, action: Action) {
    match action
    case Acquire(t, _) => t !in s.pcs
    case Reserve(t, _) => t !in s.pcs
    case Quiesce(t, _) => t in s.pcs && s.pcs[t].ToQuiesce?
    case Confirm(t) => t in s.pcs && s.pcs[t].ToConfirm?
    case Mark(t, lease, from, to) => t !in s.pcs && lease in s.issued && IsMark(from, to)
    case Release(t, lease) => t !in s.pcs && lease in s.issued
    case Resume(t) => t in s.pcs && s.pcs[t].ToResume?
    case LeaveHook(t) => t in s.pcs && s.pcs[t].InResume?
    case Finish(t) => t in s.pcs && s.pcs[t].ToFinish?
    case Corrupt => true
  }

  function Step(hooks: Registered, s: System, action: Action): System {
    if !Enabled(s, action) then s
    else
      match action
      case Acquire(t, session) =>
        var a := PlainlyAcquired(s.a, session);
        s.(a := a, issued := if a != s.a then s.issued + {Current(a)} else s.issued)
      case Reserve(t, session) =>
        var a := Reserved(s.a, session);
        if a == s.a then s else s.(a := a, pcs := s.pcs[t := ToQuiesce(Current(a))])
      case Quiesce(t, ret) =>
        s.(pcs := s.pcs[t := ToConfirm(s.pcs[t].lease, if hooks.quiesce then ret else 0, hooks.quiesce)],
           quiesces := s.quiesces + if hooks.quiesce then 1 else 0)
      case Confirm(t) =>
        var pc := s.pcs[t];
        var next := s.(a := Confirmed(s.a, pc.lease, pc.ret, pc.hookCalled), pcs := s.pcs - {t});
        if Confirms(s.a, pc.lease, pc.ret) then next.(issued := s.issued + {pc.lease})
        else if BeginsRelease(s.a, pc.lease) then
          next.(pcs := s.pcs[t := ToResume(pc.lease, pc.hookCalled)])
        else next
      case Mark(t, lease, from, to) => s.(a := Marked(s.a, lease, from, to))
      case Release(t, lease) =>
        if BeginsRelease(s.a, lease) then
          s.(a := ReleaseBegun(s.a, lease), pcs := s.pcs[t := ToResume(lease, s.a.resumeArmed)])
        else s
      case Resume(t) =>
        var lease := s.pcs[t].lease;
        if s.pcs[t].resume && hooks.resume then
          s.(pcs := s.pcs[t := InResume(lease)], resumes := s.resumes + 1)
        else s.(pcs := s.pcs[t := ToFinish(lease)])
      case LeaveHook(t) => s.(pcs := s.pcs[t := ToFinish(s.pcs[t].lease)])
      case Finish(t) => s.(a := ReleaseFinished(s.a, s.pcs[t].lease), pcs := s.pcs - {t})
      case Corrupt => s.(a := s.a.(canariesOk := false))
  }

  function Run(hooks: Registered, s: System, actions: seq<Action>): System
    decreases |actions|
  {
    if actions == [] then s else Run(hooks, Step(hooks, s, actions[0]), actions[1..])
  }

  // ---------------------------------------------------------------------
  // The invariant.

  predicate Acquiring(pc: Pc) {
    pc.ToQuiesce? || pc.ToConfirm?
  }

  /** A successful or failed quiesce of this thread has not been resumed. */
  predicate OwesResume(pc: Pc) {
    (pc.ToConfirm? && pc.hookCalled) || (pc.ToResume? && pc.resume)
  }

  ghost predicate Inv(hooks: Registered, s: System) {
    && (s.a.owner == NoOwner <==> s.a.phase == Idle)
    && (s.a.owner == NoOwner ==> !s.a.releasing && !s.a.resumeArmed && s.pcs == map[])
    && ThreadsInv(s)
    && LeasesInv(s)
    && (!hooks.resume ==> s.resumes == 0)
    && (hooks.resume ==> s.quiesces == s.resumes + Outstanding(s))
  }

  /** At most one thread is inside a call that changes the lease, and it works on
      the current lease. */
  ghost predicate ThreadsInv(s: System) {
    && (forall t, u | t in s.pcs && u in s.pcs :: t == u)
    && (forall t | t in s.pcs ::
          && s.pcs[t].lease == Current(s.a) && !s.a.resumeArmed
          && (Acquiring(s.pcs[t]) ==>
                s.a.phase == Quiescing && !s.a.releasing && Current(s.a) !in s.issued)
          && (!Acquiring(s.pcs[t]) ==> s.a.releasing))
    && (s.a.releasing ==> s.pcs != map[])
    && (s.a.phase == Quiescing ==> s.pcs != map[])
  }

  ghost predicate LeasesInv(s: System) {
    forall lease | lease in s.issued ::
      && lease.owner != NoOwner && lease.generation <= s.a.generation
      && (lease.generation == s.a.generation ==> lease == Current(s.a))
  }

  ghost function Outstanding(s: System): nat {
    if s.a.resumeArmed || exists t :: t in s.pcs && OwesResume(s.pcs[t]) then 1 else 0
  }

  lemma StepKeepsInv(hooks: Registered, s: System, action: Action)
    requires Inv(hooks, s)
    ensures Inv(hooks, Step(hooks, s, action))
  {
    if Enabled(s, action) {
      match action
      case Acquire(_, _) =>
      case Reserve(t, session) => ReserveKeepsInv(hooks, s, t, session);
      case Quiesce(t, ret) => MoveKeepsInv(hooks, s, action, t);
      case Confirm(t) => ConfirmKeepsInv(hooks, s, t);
      case Mark(_, _, _, _) =>
      case Release(t, lease) => ReleaseKeepsInv(hooks, s, t, lease);
      case Resume(t) => MoveKeepsInv(hooks, s, action, t);
      case LeaveHook(t) => MoveKeepsInv(hooks, s, action, t);
      case Finish(t) => FinishKeepsInv(hooks, s, t);
      case Corrupt =>
    }
  }

  lemma ReserveKeepsInv(hooks: Registered, s: System, t: Thread, session: nat)
    requires Inv(hooks, s) && Enabled(s, Reserve(t, session))
    ensures Inv(hooks, Step(hooks, s, Reserve(t, session)))
  {
    var s' := Step(hooks, s, Reserve(t, session));
    if s' != s {
      assert s'.pcs[t] == ToQuiesce(Current(s'.a));
    }
  }

  lemma MoveKeepsInv(hooks: Registered, s: System, action: Action, t: Thread)
    requires Inv(hooks, s) && Enabled(s, action)
    requires (action.Quiesce? || action.Resume? || action.LeaveHook?) && action.t == t
    ensures Inv(hooks, Step(hooks, s, action))
  {
    var s' := Step(hooks, s, action);
    assert t in s.pcs && t in s'.pcs;
    assert OwesResume(s'.pcs[t]) ==> Outstanding(s') == 1;
    assert OwesResume(s.pcs[t]) ==> Outstanding(s) == 1;
  }

  lemma ConfirmKeepsInv(hooks: Registered, s: System, t: Thread)
    requires Inv(hooks, s) && Enabled(s, Confirm(t))
    ensures Inv(hooks, Step(hooks, s, Confirm(t)))
  {
    var s' := Step(hooks, s, Confirm(t));
    var pc := s.pcs[t];
    assert OwesResume(pc) ==> Outstanding(s) == 1;
    if Confirms(s.a, pc.lease, pc.ret) {
      assert s'.pcs == map[];
    } else {
      assert s'.pcs[t] == ToResume(pc.lease, pc.hookCalled);
      assert OwesResume(s'.pcs[t]) ==> Outstanding(s') == 1;
    }
  }

  lemma ReleaseKeepsInv(hooks: Registered, s: System, t: Thread, lease: Lease)
    requires Inv(hooks, s) && Enabled(s, Release(t, lease))
    ensures Inv(hooks, Step(hooks, s, Release(t, lease)))
  {
    var s' := Step(hooks, s, Release(t, lease));
    if BeginsRelease(s.a, lease) {
      assert s.pcs == map[];
      assert s'.pcs[t] == ToResume(lease, s.a.resumeArmed);
      assert OwesResume(s'.pcs[t]) ==> Outstanding(s') == 1;
    }
  }

  lemma FinishKeepsInv(hooks: Registered, s: System, t: Thread)
    requires Inv(hooks, s) && Enabled(s, Finish(t))
    ensures Inv(hooks, Step(hooks, s, Finish(t)))
  {
    var s' := Step(hooks, s, Finish(t));
    assert s'.pcs == map[];
  }

  lemma {:induction false} RunKeepsInv(hooks: Registered, s: System, actions: seq<Action>)
    requires Inv(hooks, s)
    ensures Inv(hooks, Run(hooks, s, actions))
    decreases |actions|
  {
    hide Inv;
    if actions != [] {
      StepKeepsInv(hooks, s, actions[0]);
      RunKeepsInv(hooks, Step(hooks, s, actions[0]), actions[1..]);
    }
  }

  // ---------------------------------------------------------------------
  // What holds over every interleaving.

  /** At most one thread is inside a call that changes the lease, and it works on
      the current lease. */
  lemma OneThreadAtWork(hooks: Registered, actions: seq<Action>, t: Thread, u: Thread)
    ensures var s := Run(hooks, START, actions);
            t in s.pcs && u in s.pcs ==> t == u && Matches(s.a, s.pcs[t].lease)
  {
    RunKeepsInv(hooks, START, actions);
  }

  /** The action is the last section of a release of this lease. */
  predicate Completes(s: System, action: Action, lease: Lease) {
    action.Finish? && action.t in s.pcs && s.pcs[action.t] == ToFinish(lease)
  }

  /** Somewhere in the run a release of the lease is completed. */
  predicate Completed(hooks: Registered, s: System, actions: seq<Action>, lease: Lease)
    decreases |actions|
  {
    actions != [] &&
    (Completes(s, actions[0], lease) || Completed(hooks, Step(hooks, s, actions[0]), actions[1..], lease))
  }

  lemma HeldUntilCompleted(hooks: Registered, s: System, action: Action, lease: Lease)
    requires Inv(hooks, s) && Matches(s.a, lease)
    ensures Matches(Step(hooks, s, action).a, lease) <==> !Completes(s, action, lease)
    ensures forall other | other in Step(hooks, s, action).issued :: other in s.issued || other == lease
  {
  }

  /** A current lease stays current, and no other lease is handed out, exactly until
      its own release is completed. */
  lemma {:induction false} LeaseIsExclusive(hooks: Registered, s: System, actions: seq<Action>, lease: Lease)
    requires Inv(hooks, s) && Matches(s.a, lease) && !Completed(hooks, s, actions, lease)
    ensures Matches(Run(hooks, s, actions).a, lease)
    ensures forall other | other in Run(hooks, s, actions).issued :: other in s.issued || other == lease
    decreases |actions|
  {
    hide Inv, Step, Completes;
    if actions != [] {
      StepKeepsInv(hooks, s, actions[0]);
      HeldUntilCompleted(hooks, s, actions[0], lease);
      LeaseIsExclusive(hooks, Step(hooks, s, actions[0]), actions[1..], lease);
    }
  }

  lemma {:induction false} CompletedIsDead(hooks: Registered, s: System, actions: seq<Action>, lease: Lease)
    requires Inv(hooks, s) && lease in s.issued && Completed(hooks, s, actions, lease)
    ensures !Matches(Run(hooks, s, actions).a, lease)
    decreases |actions|
  {
    hide Inv, Step, Completes;
    var next := Step(hooks, s, actions[0]);
    StepKeepsInv(hooks, s, actions[0]);
    StepIssues(hooks, s, actions[0]);
    if Completes(s, actions[0], lease) {
      CompletionEndsLease(hooks, s, actions[0], lease);
      ReleasedIsDead(hooks, next, actions[1..], lease);
    } else {
      CompletedIsDead(hooks, next, actions[1..], lease);
    }
  }

  lemma StepIssues(hooks: Registered, s: System, action: Action)
    ensures s.issued <= Step(hooks, s, action).issued
  {
  }

  lemma CompletionEndsLease(hooks: Registered, s: System, action: Action, lease: Lease)
    requires Inv(hooks, s) && Completes(s, action, lease)
    ensures !Matches(Step(hooks, s, action).a, lease)
  {
  }

  /** Mutual exclusion over every interleaving: a lease that is current at one moment
      is current at a later one if and only if no release of it was completed in
      between, and a second lease is handed out only after that. */
  lemma LeasesAreSeparated(hooks: Registered, before: seq<Action>, between: seq<Action>, lease: Lease, other: Lease)
    requires var s := Run(hooks, START, before); lease in s.issued && Matches(s.a, lease)
    ensures var s := Run(hooks, START, before);
            var s' := Run(hooks, s, between);
            && (Matches(s'.a, lease) <==> !Completed(hooks, s, between, lease))
            && (other in s'.issued && other !in s.issued ==> Completed(hooks, s, between, lease))
  {
    var s := Run(hooks, START, before);
    StartHasInv(hooks);
    RunKeepsInv(hooks, START, before);
    hide Inv, Run, Completed;
    if Completed(hooks, s, between, lease) {
      CompletedIsDead(hooks, s, between, lease);
    } else {
      LeaseIsExclusive(hooks, s, between, lease);
    }
  }

  /** Between two idle moments every call of the quiesce hook is followed by
      exactly one call of the resume hook. */
  lemma QuiesceIsResumedOnce(hooks: Registered, actions: seq<Action>)
    requires hooks.resume
    ensures var s := Run(hooks, START, actions);
            && s.resumes <= s.quiesces <= s.resumes + 1
            && (s.a.phase == Idle ==> s.quiesces == s.resumes)
  {
    hide Run, Inv;
    StartHasInv(hooks);
    RunKeepsInv(hooks, START, actions);
    InvBalances(hooks, Run(hooks, START, actions));
  }

  lemma StartHasInv(hooks: Registered)
    ensures Inv(hooks, START)
  {
  }

  lemma InvBalances(hooks: Registered, s: System)
    requires Inv(hooks, s) && hooks.resume
    ensures s.resumes <= s.quiesces <= s.resumes + 1
    ensures s.a.phase == Idle ==> s.quiesces == s.resumes
  {
  }

  /** Nobody gets the arena while a resume hook is to be called or is running. */
  lemma NobodyAcquiresDuringResume(hooks: Registered, actions: seq<Action>, t: Thread, action: Action)
    requires var s := Run(hooks, START, actions);
             t in s.pcs && (s.pcs[t].InResume? || s.pcs[t].ToResume?)
    requires action.Acquire? || action.Reserve? || action.Confirm?
    ensures var s := Run(hooks, START, actions); Step(hooks, s, action) == s
  {
    RunKeepsInv(hooks, START, actions);
  }

  /** A quiesced acquisition whose hook succeeded is never lost: without another
      initialisation its reservation is still there. */
  lemma ReservationIsNeverStale(hooks: Registered, actions: seq<Action>, t: Thread)
    requires var s := Run(hooks, START, actions); t in s.pcs && s.pcs[t].ToConfirm?
    ensures var s := Run(hooks, START, actions);
            ConfirmCode(s.a, s.pcs[t].lease, s.pcs[t].ret)
            == if s.pcs[t].ret == 0 then Done else HookFailed(s.pcs[t].ret)
  {
    RunKeepsInv(hooks, START, actions);
  }

  // ---------------------------------------------------------------------
  // Calls that succeed.

  /** A thread takes an idle arena: plainly when the canaries are intact, which gives it
      the lease at once, or by a reservation. */
  lemma IdleArenaIsTaken(hooks: Registered, s: System, t: Thread, session: nat)
    requires Inv(hooks, s) && s.a.phase == Idle && session != 0
    ensures var lease := Lease(Wide11Burst, session, s.a.generation + 1);
            var plain, reserved := Step(hooks, s, Acquire(t, session)), Step(hooks, s, Reserve(t, session));
            && (if s.a.canariesOk then
                  Matches(plain.a, lease) && lease in plain.issued && plain.a.phase == Acquired && plain.pcs == map[]
                else plain == s)
            && Matches(reserved.a, lease) && reserved.a.phase == Quiescing
            && reserved.pcs == map[t := ToQuiesce(lease)] && reserved.issued == s.issued
  {
  }

  /** The hook after a reservation decides: when it succeeds, or there is none, the
      thread gets the lease, and a resume is owed exactly if the hook was called;
      otherwise it goes on to give the arena back. */
  lemma HookDecides(hooks: Registered, s: System, t: Thread, ret: int)
    requires Inv(hooks, s) && t in s.pcs && s.pcs[t].ToQuiesce?
    ensures var lease := s.pcs[t].lease;
            var next := Step(hooks, Step(hooks, s, Quiesce(t, ret)), Confirm(t));
            && next.quiesces == s.quiesces + (if hooks.quiesce then 1 else 0)
            && Matches(next.a, lease)
            && (if !hooks.quiesce || ret == 0 then
                  && lease in next.issued && next.a.phase == Acquired && next.pcs == map[]
                  && next.a.resumeArmed == hooks.quiesce && next.a.canariesOk
                else
                  lease !in next.issued && next.pcs == map[t := ToResume(lease, true)] && next.a.releasing)
  {
    assert s.pcs == map[t := s.pcs[t]];
  }

  /** A holder's release begins, unless one is under way; its resume hook is due exactly
      if the acquisition armed it. */
  lemma ReleaseBegins(hooks: Registered, s: System, t: Thread, lease: Lease)
    requires Inv(hooks, s) && Matches(s.a, lease) && lease in s.issued && s.pcs == map[]
    ensures Step(hooks, s, Release(t, lease)).pcs == map[t := ToResume(lease, s.a.resumeArmed)]
  {
  }

  /** A release, once begun, runs through: the resume hook is called exactly if it is due
      and there, and then the arena is idle again with a new generation. */
  lemma ReleaseCompletes(hooks: Registered, s: System, t: Thread)
    requires Inv(hooks, s) && t in s.pcs && s.pcs[t].ToResume?
    ensures var resumed := Step(hooks, s, Resume(t));
            var left := if s.pcs[t].resume && hooks.resume then Step(hooks, resumed, LeaveHook(t)) else resumed;
            var done := Step(hooks, left, Finish(t));
            && left.resumes == s.resumes + (if s.pcs[t].resume && hooks.resume then 1 else 0)
            && done.a == Arena(NoOwner, Idle, 0, s.a.generation + 1, false, false, true)
            && done.pcs == map[]
  {
    assert s.pcs == map[t := s.pcs[t]];
  }

  lemma DeadStaysDead(hooks: Registered, s: System, action: Action, lease: Lease)
    requires Inv(hooks, s) && lease in s.issued && !Matches(s.a, lease)
    ensures !Matches(Step(hooks, s, action).a, lease)
  {
  }

  /** Once an issued lease is no longer current it never becomes current again,
      whatever the threads do. */
  lemma {:induction false} ReleasedIsDead(hooks: Registered, s: System, actions: seq<Action>, lease: Lease)
    requires Inv(hooks, s) && lease in s.issued && !Matches(s.a, lease)
    ensures !Matches(Run(hooks, s, actions).a, lease)
    decreases |actions|
  {
    hide Inv;
    if actions != [] {
      var next := Step(hooks, s, actions[0]);
      StepKeepsInv(hooks, s, actions[0]);
      DeadStaysDead(hooks, s, actions[0], lease);
      assert lease in next.issued;
      ReleasedIsDead(hooks, next, actions[1..], lease);
    }
  }

  /** After the release of a lease has finished, no mark and no release with that
      lease ever changes the arena again. */
  lemma ReleasedLeaseHasNoEffect(hooks: Registered, before: seq<Action>, t: Thread, after: seq<Action>,
                                 lease: Lease, action: Action)
    requires var s := Run(hooks, START, before);
             t in s.pcs && s.pcs[t] == ToFinish(lease) && lease in s.issued
    requires (action.Mark? || action.Release?) && action.lease == lease
    ensures var s := Run(hooks, Step(hooks, Run(hooks, START, before), Finish(t)), after);
            Step(hooks, s, action) == s
  {
    hide Run, Inv;
    var s := Run(hooks, START, before);
    StartHasInv(hooks);
    RunKeepsInv(hooks, START, before);
    FinishEndsLease(hooks, s, t, lease);
    var done := Step(hooks, s, Finish(t));
    ReleasedIsDead(hooks, done, after, lease);
    DeadLeaseHasNoEffect(hooks, Run(hooks, done, after), lease, action);
  }

  lemma FinishEndsLease(hooks: Registered, s: System, t: Thread, lease: Lease)
    requires Inv(hooks, s) && t in s.pcs && s.pcs[t] == ToFinish(lease)
    ensures var done := Step(hooks, s, Finish(t));
            Inv(hooks, done) && !Matches(done.a, lease) && done.issued == s.issued
  {
    FinishKeepsInv(hooks, s, t);
  }

  lemma DeadLeaseHasNoEffect(hooks: Registered, s: System, lease: Lease, action: Action)
    requires !Matches(s.a, lease)
    requires (action.Mark? || action.Release?) && action.lease == lease
    ensures Step(hooks, s, action) == s
  {
  }

  /** Once the release of a lease has begun, and whatever happens after, a mark with
      the lease still changes the arena if and only if the release has not been
      completed and the arena is in the state the mark starts from. */
  lemma MarkWhileReleasing(hooks: Registered, before: seq<Action>, t: Thread, lease: Lease, after: seq<Action>,
                           u: Thread, from: Phase, to: Phase)
    requires var s := Run(hooks, START, before);
             && lease in s.issued && t in s.pcs && !Acquiring(s.pcs[t]) && s.pcs[t].lease == lease
    requires IsMark(from, to) && u !in Run(hooks, Run(hooks, START, before), after).pcs
    ensures var s := Run(hooks, START, before);
            var s' := Run(hooks, s, after);
            Step(hooks, s', Mark(u, lease, from, to)).a != s'.a
            <==> !Completed(hooks, s, after, lease) && s'.a.phase == from
  {
    var s := Run(hooks, START, before);
    StartHasInv(hooks);
    RunKeepsInv(hooks, START, before);
    WorkingIsCurrent(hooks, s, t);
    LeasesAreSeparated(hooks, before, after, lease, lease);
    IssuedGrows(hooks, s, after);
    hide Run, Inv, Completed;
    MarkStep(hooks, Run(hooks, s, after), u, lease, from, to);
  }

  lemma WorkingIsCurrent(hooks: Registered, s: System, t: Thread)
    requires Inv(hooks, s) && t in s.pcs
    ensures Matches(s.a, s.pcs[t].lease)
  {
  }

  lemma {:induction false} IssuedGrows(hooks: Registered, s: System, actions: seq<Action>)
    ensures s.issued <= Run(hooks, s, actions).issued
    decreases |actions|
  {
    if actions != [] {
      StepIssues(hooks, s, actions[0]);
      IssuedGrows(hooks, Step(hooks, s, actions[0]), actions[1..]);
    }
  }

  lemma MarkStep(hooks: Registered, s: System, t: Thread, lease: Lease, from: Phase, to: Phase)
    requires t !in s.pcs && lease in s.issued && IsMark(from, to)
    ensures Step(hooks, s, Mark(t, lease, from, to)).a != s.a <==> Matches(s.a, lease) && s.a.phase == from
  {
  }

  /** A run in which a lease is marked after its release has begun. */
  lemma MarkDuringRelease()
    ensures var lease := Lease(Wide11Burst, 7, 2);
            var s := Run(Registered(true, true), START, [Acquire(0, 7), Release(0, lease)]);
            && s.a.releasing && s.pcs == map[0 := ToResume(lease, false)]
            && Step(Registered(true, true), s, Mark(1, lease, Acquired, Armed)).a == s.a.(phase := Armed)
  {
    var hooks, lease := Registered(true, true), Lease(Wide11Burst, 7, 2);
    var actions := [Acquire(0, 7), Release(0, lease)];
    var one := Step(hooks, START, actions[0]);
    assert one.a == Arena(Wide11Burst, Acquired, 7, 2, false, false, true) && lease in one.issued;
    var rest := actions[1..];
    assert rest == [Release(0, lease)] && rest[1..] == [];
    assert Run(hooks, one, rest) == Run(hooks, Step(hooks, one, rest[0]), []);
    assert one.pcs[0 := ToResume(lease, false)] == map[0 := ToResume(lease, false)];
  }
}
