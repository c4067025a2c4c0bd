/** Running the recorded requests of a task against a board, with cancellation
    and a cleanup request. */
module TaskExecution {
  import opened Common

  datatype Record = Record(path: string, body: string, wait: nat)

  /** The world outside: the answer to each request sent (an error message or
      success), whether cancellation is seen before record `i`, and whether the
      sleep after record `i` is cut short by it. */
  datatype Script = Script(sends: nat -> Option<string>, polls: nat -> bool, sleeps: nat -> bool)

  datatype TaskError =
    | RequestFailed(recordIndex: nat, path: string, message: string)
    | Cancelled(requestsCompleted: nat)

  datatype CleanupOutcome = CleanupOutcome(ok: bool, error: Option<string>)

  datatype Failure = Failure(error: TaskError, cleanup: Option<CleanupOutcome>)

  type Outcome = Result<nat, Failure>

  // ---------------------------------------------------------------------
  // What a run must do.

  predicate StopsAt(script: Script, records: seq<Record>, i: nat)
    requires i < |records|
  {
    script.polls(i) || script.sends(i).Some? || (records[i].wait != 0 && script.sleeps(i))
  }

  /** The first record at which the run stops, or the number of records. */
  function StopPoint(script: Script, records: seq<Record>, from: nat := 0): (i: nat)
    requires from <= |records|
    ensures from <= i <= |records|
    ensures forall k | from <= k < i :: !StopsAt(script, records, k)
    ensures i < |records| ==> StopsAt(script, records, i)
    decreases |records| - from
  {
    if from == |records| || StopsAt(script, records, from) then from
    else StopPoint(script, records, from + 1)
  }

  /** The cleanup request is sent as request number `n`. */
  function CleanupAnswer(script: Script, cleanup: Option<Record>, n: nat): Option<CleanupOutcome> {
    if cleanup.None? then None else Some(CleanupOutcome(script.sends(n).None?, script.sends(n)))
  }

  function RunOutcome(script: Script, records: seq<Record>, cleanup: Option<Record>): Outcome {
    var i := StopPoint(script, records);
    if i == |records| then Ok(i)
    else if script.polls(i) then
      Err(Failure(Cancelled(i), if i > 0 then CleanupAnswer(script, cleanup, i) else None))
    else if script.sends(i).Some? then
      Err(Failure(RequestFailed(i + 1, records[i].path, script.sends(i).value),
                  CleanupAnswer(script, cleanup, i + 1)))
    else Err(Failure(Cancelled(i + 1), CleanupAnswer(script, cleanup, i + 1)))
  }

  /** The number of records an outcome says were sent, whether or not the last
      one failed. */
  function Attempted(r: Outcome): nat {
    match r
    case Ok(n) => n
    case Err(f) => if f.error.RequestFailed? then f.error.recordIndex else f.error.requestsCompleted
  }

  /** An outcome after which the board may need cleaning up. */
  predicate CleanupDue(r: Outcome) {
    r.Err? && (r.error.error.RequestFailed? || r.error.error.requestsCompleted > 0)
  }

  /** The trace an outcome stands for. */
  function Trace(r: Outcome, records: seq<Record>, cleanup: Option<Record>): seq<Record>
    requires Attempted(r) <= |records|
  {
    records[..Attempted(r)] + if CleanupDue(r) && cleanup.Some? then [cleanup.value] else []
  }

  ghost predicate ErrorExplained(script: Script, records: seq<Record>, error: TaskError, n: nat)
    requires n <= |records|
  {
    match error
    case RequestFailed(_, path, message) =>
      && n > 0 && !script.polls(n - 1) && script.sends(n - 1) == Some(message)
      && path == records[n - 1].path
    case Cancelled(_) =>
      && (forall k: nat | k < n :: script.sends(k).None?)
      && (|| (n < |records| && script.polls(n))
          || (n > 0 && records[n - 1].wait != 0 && script.sleeps(n - 1)))
  }

  /** Record `k` was sent and answered, and nothing was cancelled around it. */
  predicate WentThrough(script: Script, records: seq<Record>, k: nat)
    requires k < |records|
  {
    !script.polls(k) && script.sends(k).None? && (records[k].wait > 0 ==> !script.sleeps(k))
  }

  /** What an outcome tells about the script: every record before the last one
      attempted went through, and the last one accounts for the outcome; all is well
      exactly when every record went through. A cleanup answer is there exactly when a
      cleanup is given and a request failed or a cancellation came after at least one
      success, and it is the answer to the request after the attempted ones. */
  lemma OutcomeExplainsScript(script: Script, records: seq<Record>, cleanup: Option<Record>)
    ensures var r := RunOutcome(script, records, cleanup);
            var n := Attempted(r);
            && n <= |records|
            && (forall k: nat | k + 1 < n :: WentThrough(script, records, k))
            && (r.Ok? ==> n == |records|)
            && (r.Ok? <==> forall k: nat | k < |records| :: WentThrough(script, records, k))
            && (r.Err? ==> ErrorExplained(script, records, r.error.error, n))
            && (r.Err? ==>
                  var due := cleanup.Some? && (r.error.error.RequestFailed? || n > 0);
                  r.error.cleanup == if due then Some(CleanupOutcome(script.sends(n).None?, script.sends(n))) else None)
  {
    forall k: nat | k < StopPoint(script, records)
      ensures WentThrough(script, records, k) && script.sends(k).None?
    {
      assert !StopsAt(script, records, k);
    }
    var i := StopPoint(script, records);
    assert i < |records| ==> !WentThrough(script, records, i);
  }

  // ---------------------------------------------------------------------
  // The implementation.

  class TaskExecutor {
    const script: Script
    var sent: seq<Record>

    constructor (script: Script)
      ensures this.script == script && sent == []
    {
      this.script := script;
      sent := [];
    }

    method SendRecord(record: Record) returns (error: Option<string>)
      modifies this
      ensures sent == old(sent) + [record] && error == script.sends(|old(sent)|)
    {
      error := script.sends(|sent|);
      sent := sent + [record];
    }

    method AttemptCleanup(cleanup: Option<Record>) returns (outcome: Option<CleanupOutcome>)
      modifies this
      ensures outcome == CleanupAnswer(script, cleanup, |old(sent)|)
      ensures sent == old(sent) + if cleanup.Some? then [cleanup.value] else []
    {
      match cleanup
      case None => outcome := None;
      case Some(record) =>
        var error := SendRecord(record);
        outcome := Some(CleanupOutcome(error.None?, error));
    }

    method WhenCancelled(cleanup: Option<Record>, completed: nat) returns (failure: Failure)
      modifies this
      ensures failure == Failure(Cancelled(completed),
                                 if completed > 0 then CleanupAnswer(script, cleanup, |old(sent)|) else None)
      ensures sent == old(sent) + if completed > 0 && cleanup.Some? then [cleanup.value] else []
    {
      var outcome := None;
      if completed > 0 {
        outcome := AttemptCleanup(cleanup);
      }
      failure := Failure(Cancelled(completed), outcome);
    }

    method Execute(records: seq<Record>, cleanup: Option<Record>) returns (r: Outcome)
      requires sent == []
      modifies this
      ensures r == RunOutcome(script, records, cleanup)
      ensures Attempted(r) <= |records| && sent == Trace(r, records, cleanup)
      ensures sent[..Attempted(r)] == records[..Attempted(r)]
      ensures sent[Attempted(r)..] == if r.Err? && r.error.cleanup.Some? && cleanup.Some? then [cleanup.value] else []
    {
      var completed := 0;
      for offset := 0 to |records|
        invariant completed == offset && sent == records[..offset]
        invariant StopPoint(script, records) == StopPoint(script, records, offset)
      {
        var record := records[offset];
        if script.polls(offset) {
          var failure := WhenCancelled(cleanup, completed);
          return Err(failure);
        }
        var error := SendRecord(record);
        assert sent == records[..offset + 1];
        if error.Some? {
          var outcome := AttemptCleanup(cleanup);
          return Err(Failure(RequestFailed(offset + 1, record.path, error.value), outcome));
        }
        completed := completed + 1;
        if record.wait != 0 && script.sleeps(offset) {
          var failure := WhenCancelled(cleanup, completed);
          return Err(failure);
        }
      }
      return Ok(completed);
    }
  }
}
