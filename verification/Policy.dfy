/** The retry loop around one task. */
module Policy {
  import opened Plans

  datatype ContextError = Alive | WasCanceled | WasDeadline

  datatype TaskOutcome = TaskOutcome(status: Status, message: string, attempt: nat)

  /** What one call of runOne leaves behind: its outcome, whether the surrounding context is dead,
      and the error of the attempt's own context. */
  datatype Report = Report(outcome: TaskOutcome, parentDead: bool, own: ContextError)

  datatype RetryEvent = RetryEvent(attempt: nat, status: Status, message: string)

  /** The attempt ran into its own deadline, and not into the end of the surrounding context. */
  predicate OwnDeadline(timeout: int, r: Report) {
    timeout > 0 && !r.parentDead && r.own == WasDeadline
  }

  /** Nothing is retried after this report. */
  predicate Stops(timeout: int, r: Report) {
    OwnDeadline(timeout, r) || r.parentDead || r.outcome.status in {TimedOut, Succeeded, Skipped}
  }

  function MaxAttempts(retries: int): (m: nat)
    ensures m >= 1 && (retries >= 0 ==> m == 1 + retries) && (retries < 0 ==> m == 1)
  {
    if 1 + retries < 1 then 1 else 1 + retries
  }

  /** The attempt whose report decides: the first that stops, or the last allowed. */
  ghost predicate Deciding(retries: int, timeout: int, run: nat -> Report, k: nat) {
    && 1 <= k <= MaxAttempts(retries)
    && (forall i :: 1 <= i < k ==> !Stops(timeout, run(i)))
    && (k < MaxAttempts(retries) ==> Stops(timeout, run(k)))
  }

  /** The recorded attempt: the deciding one, except that a deadline or a dead parent leaves an unset
      number to be filled with the maximum. */
  function RecordedAttempt(retries: int, timeout: int, r: Report, k: nat): nat {
    if !OwnDeadline(timeout, r) && !r.parentDead && Stops(timeout, r) then k
    else if r.outcome.attempt != 0 then r.outcome.attempt
    else MaxAttempts(retries)
  }

  /** runOneWithPolicy. run(i) is what attempt i would report; calls counts the attempts made. */
  method RunOneWithPolicy(retries: int, timeout: int, run: nat -> Report)
    returns (oc: TaskOutcome, calls: nat, events: seq<RetryEvent>)
    ensures forall k :: Deciding(retries, timeout, run, k) <==> k == calls
    ensures |events| == calls - 1
    ensures forall i :: 1 <= i < calls ==> events[i - 1] == RetryEvent(i, run(i).outcome.status, run(i).outcome.message)
    ensures OwnDeadline(timeout, run(calls)) ==> oc.status == TimedOut
    ensures !OwnDeadline(timeout, run(calls)) ==>
      oc.status == run(calls).outcome.status && oc.message == run(calls).outcome.message
    ensures oc.attempt == RecordedAttempt(retries, timeout, run(calls), calls)
    ensures run(calls).outcome.attempt == 0 ==>
      (oc.attempt == calls <==>
        (!OwnDeadline(timeout, run(calls)) && !run(calls).parentDead) || calls == MaxAttempts(retries))
  {
    var maxAttempts := 1 + retries;
    if maxAttempts < 1 {
      maxAttempts := 1;
    }
    events := [];
    calls := 0;
    var attempt := 1;
    oc := TaskOutcome(NotRun, "", 0);
    while attempt <= maxAttempts
      invariant 1 <= attempt <= maxAttempts + 1 && maxAttempts == MaxAttempts(retries)
      invariant calls == attempt - 1
      invariant |events| == if attempt <= maxAttempts then attempt - 1 else maxAttempts - 1
      invariant forall i :: 1 <= i < attempt ==> !Stops(timeout, run(i))
      invariant forall i :: 1 <= i < attempt && i < maxAttempts ==>
        events[i - 1] == RetryEvent(i, run(i).outcome.status, run(i).outcome.message)
      invariant attempt > 1 ==> oc == run(attempt - 1).outcome
    {
      calls := attempt;
      var r := run(attempt);
      oc := r.outcome;
      var timedOut := false;
      if timeout > 0 && r.own != Alive && !r.parentDead {
        timedOut := r.own == WasDeadline;
      }
      if timedOut {
        oc := oc.(status := TimedOut, message := "task timeout exceeded");
        break;
      }
      if r.parentDead {
        break;
      }
      if oc.status == TimedOut {
        oc := oc.(attempt := attempt);
        break;
      }
      if oc.status == Succeeded || oc.status == Skipped {
        oc := oc.(attempt := attempt);
        return;
      }
      if attempt < maxAttempts {
        events := events + [RetryEvent(attempt, oc.status, oc.message)];
      }
      attempt := attempt + 1;
    }
    if oc.attempt == 0 {
      oc := oc.(attempt := maxAttempts);
    }
  }
}
