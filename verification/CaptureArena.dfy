/** The capture arena's generation-stamped lease. Every function below is one
    section that the source runs under its lock. */
module CaptureArena {
  import opened Common

  datatype Phase = Idle | Quiescing | Acquired | Armed | DmaActive | Postprocess | NetworkSend

  datatype Owner = NoOwner | Wide11Burst

  datatype Lease = Lease(owner: Owner, sessionId: nat, generation: nat)

  datatype Code = Done | NotPermitted | Invalid | Busy | Stale | Io | HookFailed(ret: int)

  datatype Arena = Arena(owner: Owner, phase: Phase, sessionId: nat, generation: nat,
                         resumeArmed: bool, releasing: bool, canariesOk: bool)

  function Current(a: Arena): Lease {
    Lease(a.owner, a.sessionId, a.generation)
  }

  predicate Matches(a: Arena, lease: Lease) {
    && lease.owner == a.owner
    && lease.owner != NoOwner
    && lease.sessionId == a.sessionId
    && lease.generation == a.generation
  }

  predicate Free(a: Arena) {
    a.owner == NoOwner && a.phase == Idle
  }

  /** `arena_mark`. It does not look at `releasing`. */
  function MarkCode(a: Arena, lease: Lease, from: Phase): Code {
    if !Matches(a, lease) then NotPermitted else if a.phase == from then Done else Invalid
  }

  function Marked(a: Arena, lease: Lease, from: Phase, to: Phase): Arena {
    if MarkCode(a, lease, from) == Done then a.(phase := to) else a
  }

  /** The four transitions a lease holder can ask for. */
  predicate IsMark(from: Phase, to: Phase) {
    || (from == Acquired && to == Armed)
    || (from == Armed && to == DmaActive)
    || (from == DmaActive && to == Postprocess)
    || (from == Postprocess && to == NetworkSend)
  }

  /** A new generation for a new owner. */
  function Taken(a: Arena, sessionId: nat, phase: Phase): Arena {
    a.(generation := a.generation + 1, owner := Wide11Burst, phase := phase,
       sessionId := sessionId, resumeArmed := false)
  }

  predicate CanTake(a: Arena, sessionId: nat) {
    sessionId != 0 && Free(a)
  }

  /** `try_acquire_wide11`, which also wants the canaries intact. */
  function PlainlyAcquired(a: Arena, sessionId: nat): Arena {
    if CanTake(a, sessionId) && a.canariesOk then Taken(a, sessionId, Acquired) else a
  }

  /** The first section of `try_acquire_wide11_quiesced`. */
  function Reserved(a: Arena, sessionId: nat): Arena {
    if CanTake(a, sessionId) then Taken(a, sessionId, Quiescing) else a
  }

  /** The second section of `try_acquire_wide11_quiesced` goes on with the
      lease. */
  predicate Confirms(a: Arena, lease: Lease, ret: int) {
    ret == 0 && Matches(a, lease) && a.phase == Quiescing
  }

  predicate BeginsRelease(a: Arena, lease: Lease) {
    Matches(a, lease) && !a.releasing
  }

  function ReleaseBegun(a: Arena, lease: Lease): Arena {
    if BeginsRelease(a, lease) then a.(releasing := true, resumeArmed := false) else a
  }

  function Confirmed(a: Arena, lease: Lease, ret: int, hookCalled: bool): Arena {
    if Confirms(a, lease, ret) then
      a.(phase := Acquired, resumeArmed := hookCalled, canariesOk := true)
    else ReleaseBegun(a, lease)
  }

  function ConfirmCode(a: Arena, lease: Lease, ret: int): Code {
    if Confirms(a, lease, ret) then Done
    else if ret != 0 then HookFailed(ret)
    else if a.canariesOk then Stale
    else Io
  }

  function Cleared(a: Arena): Arena {
    Arena(NoOwner, Idle, 0, a.generation + 1, false, false, true)
  }

  function ReleaseFinished(a: Arena, lease: Lease): Arena {
    if a.releasing && Matches(a, lease) then Cleared(a) else a
  }

  // ---------------------------------------------------------------------
  // The implementation.

  /** The registered hooks: whether each one is there, and what `quiesce`
      answers. */
  datatype Hooks = Hooks(quiesce: Option<int>, resume: bool)

  class ArenaState {
    var owner: Owner
    var phase: Phase
    var sessionId: nat
    var generation: nat
    var resumeArmed: bool
    var releaseInProgress: bool
    var canariesOk: bool

    function A(): Arena
      reads this
    {
      Arena(owner, phase, sessionId, generation, resumeArmed, releaseInProgress, canariesOk)
    }

    constructor ()
      ensures A() == Arena(NoOwner, Idle, 0, 1, false, false, true)
    {
      owner, phase, sessionId, generation := NoOwner, Idle, 0, 1;
      resumeArmed, releaseInProgress, canariesOk := false, false, true;
    }

    method Mark(lease: Lease, from: Phase, to: Phase) returns (code: Code)
      modifies this
      ensures code == MarkCode(old(A()), lease, from) && A() == Marked(old(A()), lease, from, to)
    {
      code := NotPermitted;
      if Matches(A(), lease) {
        if phase == from {
          phase := to;
          code := Done;
        } else {
          code := Invalid;
        }
      }
    }

    method TryAcquireWide11(session: nat) returns (lease: Option<Lease>)
      modifies this
      ensures A() == PlainlyAcquired(old(A()), session)
      ensures lease.Some? <==> session != 0 && old(owner) == NoOwner && old(phase) == Idle && old(canariesOk)
      ensures lease.Some? ==> && lease == Some(Lease(Wide11Burst, session, old(generation) + 1)) && phase == Acquired
                              && Matches(A(), lease.value)
    {
      if session == 0 {
        return None;
      }
      if owner == NoOwner && phase == Idle && canariesOk {
        generation := generation + 1;
        owner := Wide11Burst;
        phase := Acquired;
        sessionId := session;
        resumeArmed := false;
        return Some(Lease(owner, session, generation));
      }
      return None;
    }

    method Reserve(session: nat) returns (lease: Option<Lease>)
      requires session != 0
      modifies this
      ensures A() == Reserved(old(A()), session)
      ensures lease == if Free(old(A())) then Some(Current(A())) else None
    {
      if owner != NoOwner || phase != Idle {
        return None;
      }
      generation := generation + 1;
      owner := Wide11Burst;
      phase := Quiescing;
      sessionId := session;
      resumeArmed := false;
      return Some(Lease(owner, session, generation));
    }

    method BeginRelease(lease: Lease) returns (started: bool)
      modifies this
      ensures started <==> BeginsRelease(old(A()), lease)
      ensures A() == ReleaseBegun(old(A()), lease)
    {
      if !Matches(A(), lease) || releaseInProgress {
        return false;
      }
      releaseInProgress := true;
      resumeArmed := false;
      return true;
    }

    method Confirm(lease: Lease, ret: int, hookCalled: bool) returns (code: Code, started: bool)
      modifies this
      ensures code == ConfirmCode(old(A()), lease, ret)
      ensures A() == Confirmed(old(A()), lease, ret, hookCalled)
      ensures started <==> code != Done && BeginsRelease(old(A()), lease)
      ensures ret != 0 ==> code == HookFailed(ret)
      ensures ret == 0 && code != Done ==> code == if old(canariesOk) then Stale else Io
      ensures code == Done <==> ret == 0 && Matches(old(A()), lease) && old(phase) == Quiescing
    {
      if ret == 0 && Matches(A(), lease) && phase == Quiescing {
        canariesOk := true;
        phase := Acquired;
        resumeArmed := hookCalled;
        return Done, false;
      }
      code := if ret == 0 then if canariesOk then Stale else Io else HookFailed(ret);
      started := BeginRelease(lease);
    }

    method ClearOwner()
      modifies this
      ensures A() == Cleared(old(A()))
    {
      owner, phase, sessionId := NoOwner, Idle, 0;
      resumeArmed, releaseInProgress := false, false;
      generation := generation + 1;
      canariesOk := true;
    }

    method FinishRelease(lease: Lease)
      modifies this
      ensures A() == ReleaseFinished(old(A()), lease)
    {
      if releaseInProgress && Matches(A(), lease) {
        ClearOwner();
      }
    }

    /** `release` when no other thread intervenes. */
    method Release(lease: Lease, hooks: Hooks) returns (released: bool, resumed: bool)
      modifies this
      ensures released <==> lease == old(Current(A())) && old(owner) != NoOwner && !old(releaseInProgress)
      ensures resumed <==> released && old(resumeArmed) && hooks.resume
      ensures A() == if released then Cleared(old(A())) else old(A())
    {
      var shouldResume := resumeArmed;
      released := BeginRelease(lease);
      resumed := false;
      if released {
        resumed := shouldResume && hooks.resume;
        FinishRelease(lease);
      }
    }

    /** `try_acquire_wide11_quiesced` when no other thread intervenes: it holds
        the arena afterwards exactly when the hook, if there is one, succeeded. */
    method TryAcquireWide11Quiesced(session: nat, hooks: Hooks)
      returns (code: Code, lease: Option<Lease>, resumed: bool)
      requires owner == NoOwner ==> !releaseInProgress
      modifies this
      ensures code == Done <==> && session != 0 && old(owner) == NoOwner && old(phase) == Idle
                                && hooks.quiesce in {None, Some(0)}
      ensures code == Done ==> lease == Some(Current(A())) && A().phase == Acquired
                               && resumeArmed == hooks.quiesce.Some?
      ensures code != Done ==> lease == None
      ensures code != Done && CanTake(old(A()), session) ==>
                A() == Cleared(Reserved(old(A()), session)) && resumed == hooks.resume
      ensures !CanTake(old(A()), session) ==> A() == old(A()) && !resumed
    {
      resumed := false;
      if session == 0 {
        return Invalid, None, false;
      }
      var reserved := Reserve(session);
      if reserved == None {
        return Busy, None, false;
      }
      var ret := if hooks.quiesce.Some? then hooks.quiesce.value else 0;
      var started;
      code, started := Confirm(reserved.value, ret, hooks.quiesce.Some?);
      if code == Done {
        return code, reserved, false;
      }
      if started {
        resumed := hooks.quiesce.Some? && hooks.resume;
        FinishRelease(reserved.value);
      }
      lease := None;
    }
  }
}
