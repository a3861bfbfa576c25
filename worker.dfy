/** The worker of queuectl/worker.py: how a finished child process is turned into
    `(success, output, error)`, and one pass of the `Worker.run` loop. */
module Worker {
  import opened Wrappers
  import opened Models
  import opened Storage
  import Numerals

  /** How `subprocess.run` ended. Running the command itself is outside the model. */
  datatype ProcessOutcome =
    | Exited(returnCode: int, stdout: string, stderr: string)  // the call returned
    | TimedOut                                                  // subprocess.TimeoutExpired
    | LaunchFailed(message: string)                             // any other exception, as str(e)

  /** The `(success, output, error)` tuple `_execute_job` returns. */
  datatype Execution = Execution(success: bool, output: Option<string>, error: Option<string>)

  /** `": " + stderr` when stderr is non-empty, nothing otherwise. */
  function StderrSuffix(stderr: string): string
  {
    if stderr != "" then ": " + stderr else ""
  }

  function ExitMessage(returnCode: int, stderr: string): string
  {
    "Exit code " + Numerals.IntToString(returnCode) + StderrSuffix(stderr)
  }

  /** `f"{timeout}"` of an Optional[int]. */
  function TimeoutText(timeout: Option<int>): string
  {
    if timeout.Some? then Numerals.IntToString(timeout.value) else "None"
  }

  function TimeoutMessage(timeout: Option<int>): string
  {
    "Job timed out after " + TimeoutText(timeout) + " seconds"
  }

  function LaunchMessage(message: string): string
  {
    "Execution error: " + message
  }

  /** `Worker._execute_job`: success exactly on exit code 0; the error is set exactly on failure;
      stdout is kept whenever the process ran to an exit. */
  function ExecuteJob(job: Row, outcome: ProcessOutcome): (e: Execution)
    ensures e.success <==> outcome.Exited? && outcome.returnCode == 0
    ensures e.error.None? <==> e.success
    ensures e.output == if outcome.Exited? then Some(outcome.stdout) else None
    ensures outcome.Exited? && outcome.returnCode != 0 ==>
              e.error == Some(ExitMessage(outcome.returnCode, outcome.stderr))
    ensures outcome.TimedOut? ==> e.error == Some(TimeoutMessage(job.timeout))
    ensures outcome.LaunchFailed? ==> e.error == Some(LaunchMessage(outcome.message))
  {
    match outcome
    case Exited(code, stdout, stderr) =>
      if code != 0 then Execution(false, Some(stdout), Some(ExitMessage(code, stderr)))
      else Execution(true, Some(stdout), None)
    case TimedOut => Execution(false, None, Some(TimeoutMessage(job.timeout)))
    case LaunchFailed(message) => Execution(false, None, Some(LaunchMessage(message)))
  }

  /** In a numeral followed by a stderr suffix, the first colon is where the suffix starts. */
  lemma NumeralThenSuffix(a: string, s: string)
    requires forall k :: 0 <= k < |a| ==> Numerals.IsDigit(a[k]) || a[k] == '-'
    requires s == "" || s[0] == ':'
    ensures forall k :: 0 <= k < |a| ==> (a + s)[k] != ':'
    ensures s != "" ==> (a + s)[|a|] == ':'
  {
  }

  /** The exit-code message determines the exit code and the stderr text it was built from. */
  lemma ExitMessageInjective(code1: int, stderr1: string, code2: int, stderr2: string)
    requires ExitMessage(code1, stderr1) == ExitMessage(code2, stderr2)
    ensures code1 == code2 && stderr1 == stderr2
  {
    var p := "Exit code ";
    var a1, a2 := Numerals.IntToString(code1), Numerals.IntToString(code2);
    var s1, s2 := StderrSuffix(stderr1), StderrSuffix(stderr2);
    var x := a1 + s1;
    assert x == ExitMessage(code1, stderr1)[|p|..];
    assert x == a2 + s2 by {
      assert a2 + s2 == ExitMessage(code2, stderr2)[|p|..];
    }
    NumeralThenSuffix(a1, s1);
    NumeralThenSuffix(a2, s2);
    assert |a1| == |a2|;
    assert a1 == x[..|a1|] == a2;
    Numerals.IntToStringInjective(code1, code2);
    assert s1 == x[|a1|..] == s2;
    assert stderr1 == stderr2 by {
      if stderr1 != "" {
        assert stderr1 == s1[2..] && stderr2 == s2[2..];
      }
    }
  }

  /** A failed execution determines the outcome that caused it: the recorded error text and
      output tell an exit code, a timeout and a launch error apart, and recover their details. */
  lemma FailureDeterminesOutcome(job: Row, o1: ProcessOutcome, o2: ProcessOutcome)
    requires ExecuteJob(job, o1) == ExecuteJob(job, o2) && !ExecuteJob(job, o1).success
    ensures o1 == o2
  {
    assert forall timeout :: TimeoutMessage(timeout)[0] == 'J';
    assert forall m :: LaunchMessage(m)[0] == 'E' && LaunchMessage(m)[17..] == m;
    if o1.Exited? && o2.Exited? {
      ExitMessageInjective(o1.returnCode, o1.stderr, o2.returnCode, o2.stderr);
    }
  }

  /** What one pass of the `Worker.run` loop does to the jobs table `t`: release the stale
      leases, try to acquire, and resolve the acquired job with `complete_job` on success or
      `fail_job` on failure. `run` is the child process. `handled` is the job resolved, if any. */
  ghost predicate IterationStep(t: Table, config: Config, workerId: string, now: Time, finishedAt: Time,
                                run: (string, Option<int>) -> ProcessOutcome, handled: Option<string>, t': Table)
  {
    var released := ReleaseStale(t, now - DefaultStaleMinutes * SecondsPerMinute, now);
    if handled.None? then !HasEligible(released, now) && t' == released
    else
      var id := handled.value;
      && IsFifoChoice(released, now, id)
      && var job := released[id].(state := Processing);
         var leased := released[id := Leased(released[id], workerId, now)];
         var e := ExecuteJob(job, run(job.command, job.timeout));
         t' == leased[id := if e.success then CompletedRow(leased[id], e.output, finishedAt)
                            else FailedRow(leased[id], e.error.value, finishedAt, GetConfig(config, "backoff_base"))]
  }

  /** After a pass that handled a job, that job holds no lease any more: it is Completed
      exactly when its command succeeded, and otherwise Pending awaiting a retry or Dead.
      Every other job is as the stale-lease sweep left it. */
  lemma IterationResolvesJob(t: Table, config: Config, workerId: string, now: Time, finishedAt: Time,
                             run: (string, Option<int>) -> ProcessOutcome, id: string, t': Table)
    requires TableValid(t)
    requires IterationStep(t, config, workerId, now, finishedAt, run, Some(id), t')
    ensures var released := ReleaseStale(t, now - DefaultStaleMinutes * SecondsPerMinute, now);
            && t'.Keys == t.Keys
            && t'[id].lockedBy.None? && t'[id].lockedAt.None?
            && (t'[id].state == Completed <==> ExecuteJob(released[id].(state := Processing), run(t[id].command, t[id].timeout)).success)
            && t'[id].state in {Completed, Pending, Dead}
            && forall k :: k in t && k != id ==> t'[k] == released[k]
  {
    var released := ReleaseStale(t, now - DefaultStaleMinutes * SecondsPerMinute, now);
    assert SameJob(released[id], t[id]);
  }

  class Worker {
    const workerId: string
    const store: JobStore
    var running: bool
    /** The job between its acquisition and its resolution; None otherwise. */
    var currentJobId: Option<string>

    /** The store is handed in rather than opened from a database path. */
    constructor (workerId: string, store: JobStore)
      ensures this.workerId == workerId && this.store == store
      ensures running && currentJobId.None?
    {
      this.workerId := workerId;
      this.store := store;
      running := true;
      currentJobId := None;
    }

    /** `_handle_shutdown`: the loop stops at its next check; the pass in progress is not cut short. */
    method HandleShutdown()
      modifies this
      ensures !running && currentJobId == old(currentJobId)
    {
      running := false;
    }

    /** The body of the `while self.running` loop. The stale sweep runs before the acquisition,
        and an acquired job is resolved by exactly one of `complete_job` and `fail_job`, on its
        own id; `fail_job` cannot raise here, so `current_job_id` is None again once the job is
        resolved, and a pass that finds no job leaves it alone. */
    method RunIteration(now: Time, finishedAt: Time, run: (string, Option<int>) -> ProcessOutcome)
      returns (handled: Option<string>)
      requires store.Valid()
      modifies this, store
      ensures store.Valid() && store.config == old(store.config)
      ensures running == old(running)
      ensures currentJobId == if handled.None? then old(currentJobId) else None
      ensures IterationStep(old(store.jobs), store.config, workerId, now, finishedAt, run, handled, store.jobs)
    {
      var _ := store.ReleaseStaleLocks(DefaultStaleMinutes, now);
      var job := store.AcquireJob(workerId, now);
      if job.None? {
        // Here the source sleeps for a second before the next pass.
        return None;
      }
      var id := job.value.id;
      currentJobId := Some(id);
      var e := ExecuteJob(job.value, run(job.value.command, job.value.timeout));
      if e.success {
        store.CompleteJob(id, e.output, finishedAt);
      } else {
        var r := store.FailJob(id, e.error.value, finishedAt);
        assert r == Pass;
      }
      currentJobId := None;
      handled := Some(id);
    }
  }
}
