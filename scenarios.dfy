/** The scenarios of test_queuectl.py, replayed against the model. Each method starts from a
    new database and states what the test checks. Time is in whole seconds, so the tests'
    0.1 s pauses leave the clock where it was. */
module Scenarios {
  import opened Wrappers
  import opened Models
  import opened Storage
  import Worker
  import Numerals

  /** Distinct job ids for the scenarios that add jobs in a loop. */
  function IdOf(i: nat): string
  {
    "job-" + Numerals.IntToString(i)
  }

  lemma IdOfInjective(i: nat, j: nat)
    ensures IdOf(i) == IdOf(j) ==> i == j
  {
    if IdOf(i) == IdOf(j) {
      assert Numerals.IntToString(i) == IdOf(i)[4..] == IdOf(j)[4..] == Numerals.IntToString(j);
      Numerals.IntToStringInjective(i, j);
    }
  }

  /** test_add_job: an explicit id is returned and the job is listed as Pending. */
  method AddJobScenario(now: Time) returns (r: Result<string, StoreError>, ghost listed: seq<Row>)
    ensures r == Ok("test-1")
    ensures |listed| == 1 && listed[0].command == "echo 'hello'" && listed[0].state == Pending
  {
    var store := new JobStore();
    r := store.AddJob("echo 'hello'", Some("test-1"), None, None, None, "generated", now);
    assert MatchingIds(store.jobs, None) == {"test-1"};
    listed := ListJobs(store.jobs, None, DefaultListLimit);
  }

  /** test_acquire_job: the job is leased once; a second worker finds nothing. */
  method AcquireTwiceScenario(now: Time) returns (first: Option<Row>, second: Option<Row>)
    ensures first.Some? && first.value.id == "job-1" && first.value.state == Processing
    ensures second.None?
  {
    var store := new JobStore();
    var _ := store.AddJob("sleep 1", Some("job-1"), None, None, None, "generated", now);
    ghost var added := store.jobs;
    assert Eligible(added["job-1"], now);
    first := store.AcquireJob("worker-1", now);
    SecondAcquireFindsNothing(added, "job-1", "worker-1", now, now);
    second := store.AcquireJob("worker-2", now);
  }

  /** test_complete_job: the completed job is listed under `completed` with its output. */
  method CompleteScenario(now: Time) returns (ghost listed: seq<Row>)
    ensures |listed| == 1 && listed[0].state == Completed && listed[0].output == Some("done\n")
  {
    var store := new JobStore();
    var _ := store.AddJob("echo 'done'", None, None, None, None, "generated", now);
    assert Eligible(store.jobs["generated"], now);
    var job := store.AcquireJob("worker-1", now);
    store.CompleteJob(job.value.id, Some("done\n"), now);
    assert MatchingIds(store.jobs, Some("completed")) == {"generated"};
    listed := ListJobs(store.jobs, Some("completed"), DefaultListLimit);
  }

  /** test_fail_job_with_retry: one failure leaves the job Pending with one attempt and a
      retry time two seconds on. */
  method FailWithRetryScenario(now: Time) returns (row: Row)
    ensures row.state == Pending && row.attempts == 1 && row.runAt == Some(now + 2)
  {
    var store := new JobStore();
    store.SetConfig("backoff_base", 2);
    var _ := store.AddJob("false", Some("f"), Some(3), None, None, "generated", now);
    assert Eligible(store.jobs["f"], now);
    var job := store.AcquireJob("worker-1", now);
    var _ := store.FailJob("f", "Command failed", now);
    row := store.jobs["f"];
  }

  /** One acquire-then-fail round of the tests, at time `at`; returns whether a job was acquired. */
  method FailRound(store: JobStore, at: Time, error: string) returns (acquired: bool)
    requires store.Valid() && store.jobs.Keys == {"j"}
    modifies store
    ensures store.Valid() && store.jobs.Keys == {"j"} && store.config == old(store.config)
    ensures acquired == Eligible(old(store.jobs)["j"], at)
    ensures store.jobs["j"] == if acquired then FailedRow(Leased(old(store.jobs)["j"], "worker-1", at), error, at, GetConfig(store.config, "backoff_base"))
                               else old(store.jobs)["j"]
  {
    var job := store.AcquireJob("worker-1", at);
    acquired := job.Some?;
    if acquired {
      var _ := store.FailJob(job.value.id, error, at);
    }
  }

  /** test_fail_job_moves_to_dlq as written: the three acquire/fail rounds run 0.1 s apart.
      The second and third acquisitions fall inside the 2 s backoff and find nothing, so the
      job is still Pending after one attempt and the dead-letter listing the test checks is empty. */
  method DlqTestAsWritten(now: Time) returns (acquired: seq<bool>, final: Row, ghost dead: seq<Row>)
    ensures acquired == [true, false, false] && final.state == Pending && final.attempts == 1
    ensures dead == []
  {
    var store := new JobStore();
    var _ := store.AddJob("false", Some("j"), Some(2), None, None, "generated", now);
    assert Pow(2, 1) == 2;
    var got1 := FailRound(store, now, "Attempt 1 failed");
    var got2 := FailRound(store, now, "Attempt 2 failed");
    var got3 := FailRound(store, now, "Attempt 3 failed");
    acquired := [got1, got2, got3];
    final := store.jobs["j"];
    assert MatchingIds(store.jobs, Some("dead")) == {};
    dead := ListJobs(store.jobs, Some("dead"), DefaultListLimit);
  }

  /** test_fail_job_moves_to_dlq with each round waiting out the backoff (2 s, then 4 s):
      with `max_retries = 2` the third failure moves the job to the dead-letter state with
      three attempts. */
  method DlqThresholdScenario(now: Time) returns (acquired: seq<bool>, final: Row)
    ensures acquired == [true, true, true] && final.state == Dead && final.attempts == 3
  {
    var store := new JobStore();
    var _ := store.AddJob("false", Some("j"), Some(2), None, None, "generated", now);
    assert GetConfig(store.config, "backoff_base") == 2;
    assert Pow(2, 1) == 2 && Pow(2, 2) == 4;
    var got1 := FailRound(store, now, "Attempt 1 failed");
    assert store.jobs["j"].runAt == Some(now + 2);
    var got2 := FailRound(store, now + 2, "Attempt 2 failed");
    assert store.jobs["j"].runAt == Some(now + 6);
    var got3 := FailRound(store, now + 6, "Attempt 3 failed");
    acquired := [got1, got2, got3];
    final := store.jobs["j"];
  }

  /** test_retry_dlq_job as written: the acquisition right after the first failure returns
      None, so the test's `job["id"]` raises before the job ever reaches the dead-letter state. */
  method RetryTestAsWritten(now: Time) returns (second: Option<Row>, state: JobState)
    ensures second.None? && state == Pending
  {
    var store := new JobStore();
    var _ := store.AddJob("false", Some("j"), Some(1), None, None, "generated", now);
    assert Pow(2, 1) == 2;
    var got := FailRound(store, now, "Failed");
    second := store.AcquireJob("worker-1", now);
    state := store.jobs["j"].state;
  }

  /** test_retry_dlq_job with the backoff waited out: two failures exhaust `max_retries = 1`,
      and `retry_job` brings the job back as Pending with no attempts, error or `run_at`. */
  method RetryDlqScenario(now: Time) returns (deadState: JobState, retried: Outcome<StoreError>, final: Row)
    ensures deadState == Dead && retried == Pass
    ensures final.state == Pending && final.attempts == 0 && final.error.None? && final.runAt.None?
    ensures final.command == "false" && final.maxRetries == 1
  {
    var store := new JobStore();
    var _ := store.AddJob("false", Some("j"), Some(1), None, None, "generated", now);
    assert Pow(2, 1) == 2;
    var got := FailRound(store, now, "Failed");
    assert store.jobs["j"].runAt == Some(now + 2);
    got := FailRound(store, now + 2, "Failed again");
    deadState := store.jobs["j"].state;
    retried := store.RetryJob("j", now + 3);
    final := store.jobs["j"];
  }

  /** test_config: each value written is the value read back. */
  method ConfigScenario() returns (maxRetries: int, backoffBase: int)
    ensures maxRetries == 5 && backoffBase == 3
  {
    var store := new JobStore();
    store.SetConfig("max_retries", 5);
    maxRetries := GetConfig(store.config, "max_retries");
    store.SetConfig("backoff_base", 3);
    backoffBase := GetConfig(store.config, "backoff_base");
  }

  /** One round of test_backoff_calculation at time `at`: the retry delay it records, if the
      acquisition found the job. */
  method BackoffRound(store: JobStore, at: Time, delays: seq<int>) returns (delays': seq<int>)
    requires store.Valid() && store.jobs.Keys == {"j"}
    modifies store
    ensures store.Valid() && store.jobs.Keys == {"j"} && store.config == old(store.config)
    ensures var r := old(store.jobs)["j"];
            if Eligible(r, at) then
              store.jobs["j"] == FailedRow(Leased(r, "worker-1", at), "failed", at, GetConfig(store.config, "backoff_base"))
              && delays' == delays + (if store.jobs["j"].state == Pending then [store.jobs["j"].runAt.value - at] else [])
            else store.jobs["j"] == r && delays' == delays
  {
    var got := FailRound(store, at, "failed");
    delays' := delays;
    // The test reads `run_at` from the pending listing, which is empty once the job is Dead.
    if got && store.jobs["j"].state == Pending {
      delays' := delays + [store.jobs["j"].runAt.value - at];
    }
  }

  /** test_backoff_calculation as written: the second and third acquisitions come before the
      first retry time, so only one delay is recorded where the test expects three. */
  method BackoffTestAsWritten(now: Time) returns (delays: seq<int>)
    ensures delays == [2]
  {
    var store := new JobStore();
    store.SetConfig("backoff_base", 2);
    var _ := store.AddJob("false", Some("j"), Some(5), None, None, "generated", now);
    assert Pow(2, 1) == 2;
    delays := BackoffRound(store, now, []);
    delays := BackoffRound(store, now, delays);
    delays := BackoffRound(store, now, delays);
  }

  /** test_backoff_calculation with each round at the job's retry time: with base 2 the
      delays after the first three failures are 2, 4 and 8 seconds. */
  method BackoffScenario(now: Time) returns (delays: seq<int>)
    ensures delays == [2, 4, 8]
  {
    var store := new JobStore();
    store.SetConfig("backoff_base", 2);
    var _ := store.AddJob("false", Some("j"), Some(5), None, None, "generated", now);
    assert Pow(2, 1) == 2 && Pow(2, 2) == 4 && Pow(2, 3) == 8;
    delays := BackoffRound(store, now, []);
    assert store.jobs["j"].runAt == Some(now + 2);
    delays := BackoffRound(store, now + 2, delays);
    assert store.jobs["j"].runAt == Some(now + 6);
    delays := BackoffRound(store, now + 6, delays);
  }

  /** test_scheduled_job_not_acquired_early / _acquired_when_ready: a `run_at` an hour ahead
      blocks acquisition; one a second in the past does not. */
  method ScheduledScenario(now: Time) returns (early: Option<Row>, ready: Option<Row>)
    ensures early.None?
    ensures ready.Some? && ready.value.id == "past"
  {
    var future := new JobStore();
    var _ := future.AddJob("echo 'future'", Some("future"), None, Some(now + 3600), None, "generated", now);
    early := future.AcquireJob("worker-1", now);
    var past := new JobStore();
    var _ := past.AddJob("echo 'past'", Some("past"), None, Some(now - 1), None, "generated", now);
    assert Eligible(past.jobs["past"], now);
    ready := past.AcquireJob("worker-1", now);
  }

  /** test_release_stale_locks: a lease taken ten minutes ago is reclaimed by a five-minute
      sweep, and the job is then acquired again by another worker. */
  method ReleaseStaleScenario(now: Time) returns (released: nat, again: Option<Row>)
    ensures released == 1
    ensures again.Some? && again.value.id == "s" && again.value.attempts == 0
  {
    var store := new JobStore();
    var _ := store.AddJob("sleep 1", Some("s"), None, None, None, "generated", now - 600);
    assert Eligible(store.jobs["s"], now - 600);
    var first := store.AcquireJob("worker-1", now - 600);
    assert StaleIds(store.jobs, now - 300) == {"s"};
    released := store.ReleaseStaleLocks(5, now);
    assert Eligible(store.jobs["s"], now);
    again := store.AcquireJob("worker-2", now);
  }

  /** Adds, runs and completes `n` jobs one at a time on an empty store, as the loop of
      test_cleanup_old_jobs does. */
  method CompleteNumbered(store: JobStore, n: nat, now: Time)
    requires store.Valid() && store.jobs == map[]
    modifies store
    ensures store.Valid() && store.config == old(store.config)
    ensures |store.jobs| == n
    ensures forall id :: id in store.jobs ==> store.jobs[id].state == Completed
  {
    var i := 0;
    while i < n
      invariant 0 <= i <= n
      invariant store.Valid() && store.config == old(store.config)
      invariant |store.jobs| == i
      invariant forall id :: id in store.jobs ==> store.jobs[id].state == Completed
      invariant forall id :: id in store.jobs ==> exists j :: 0 <= j < i && id == IdOf(j)
    {
      assert IdOf(i) !in store.jobs by {
        forall j | 0 <= j < i
          ensures IdOf(j) != IdOf(i)
        {
          IdOfInjective(i, j);
        }
      }
      var _ := store.AddJob("echo " + Numerals.IntToString(i), None, None, None, None, IdOf(i), now);
      assert Eligible(store.jobs[IdOf(i)], now);
      var job := store.AcquireJob("worker-1", now);
      assert job.value.id == IdOf(i);
      store.CompleteJob(job.value.id, None, now);
      i := i + 1;
    }
  }

  /** test_cleanup_old_jobs: five jobs are run to completion, their `updated_at` is set ten days
      back by hand, and a seven-day cleanup deletes all five. */
  method CleanupScenario(now: Time) returns (deleted: nat)
    ensures deleted == 5
  {
    var store := new JobStore();
    CompleteNumbered(store, 5, now);
    // The test's direct UPDATE of every row's `updated_at`.
    var aged := map id | id in store.jobs :: store.jobs[id].(updatedAt := now - 10 * SecondsPerDay);
    assert aged.Keys == store.jobs.Keys;
    store.jobs := aged;
    assert ExpiredIds(store.jobs, now - DefaultRetentionDays * SecondsPerDay) == store.jobs.Keys;
    deleted := store.CleanupOldJobs(DefaultRetentionDays, now);
  }

  /** Adds `n` jobs with the generated ids `IdOf(0)` to `IdOf(n - 1)` to an empty store. */
  method AddNumbered(store: JobStore, n: nat, now: Time)
    requires store.Valid() && store.jobs == map[]
    modifies store
    ensures store.Valid() && store.config == old(store.config)
    ensures |store.jobs| == n
    ensures forall id :: id in store.jobs ==>
              store.jobs[id].state == Pending && store.jobs[id].runAt.None? && store.jobs[id].lockedBy.None?
  {
    var i := 0;
    while i < n
      invariant 0 <= i <= n
      invariant store.Valid() && store.config == old(store.config)
      invariant |store.jobs| == i
      invariant forall id :: id in store.jobs ==>
                  store.jobs[id].state == Pending && store.jobs[id].runAt.None? && store.jobs[id].lockedBy.None?
      invariant forall id :: id in store.jobs ==> exists j :: 0 <= j < i && id == IdOf(j)
    {
      assert IdOf(i) !in store.jobs by {
        forall j | 0 <= j < i
          ensures IdOf(j) != IdOf(i)
        {
          IdOfInjective(i, j);
        }
      }
      var _ := store.AddJob("echo " + Numerals.IntToString(i), None, None, None, None, IdOf(i), now);
      i := i + 1;
    }
  }

  /** test_multiple_workers_no_overlap: ten workers acquiring in turn from ten pending jobs each
      get a job, and no job is handed out twice. */
  method NoOverlapScenario(now: Time) returns (acquired: seq<string>)
    ensures |acquired| == 10
    ensures forall i, j :: 0 <= i < j < |acquired| ==> acquired[i] != acquired[j]
  {
    var store := new JobStore();
    AddNumbered(store, 10, now);
    ghost var keys := store.jobs.Keys;
    ghost var taken: set<string> := {};
    acquired := [];
    var i := 0;
    while i < 10
      invariant 0 <= i <= 10 && |acquired| == i && |taken| == i
      invariant store.Valid() && store.jobs.Keys == keys && |keys| == 10
      invariant taken <= keys
      invariant forall k :: 0 <= k < i ==> acquired[k] in taken
      invariant forall k, l :: 0 <= k < l < i ==> acquired[k] != acquired[l]
      invariant forall id :: id in keys ==> (id in taken <==> store.jobs[id].state != Pending)
      invariant forall id :: id in keys && id !in taken ==> store.jobs[id].runAt.None?
    {
      assert taken != keys;
      ghost var free :| free in keys && free !in taken;
      assert Eligible(store.jobs[free], now);
      var job := store.AcquireJob("worker-" + Numerals.IntToString(i), now);
      var id := job.value.id;
      assert id !in taken;
      acquired := acquired + [id];
      taken := taken + {id};
      i := i + 1;
    }
  }

  /** The four executions of TestWorker: exit status 0 succeeds with the output, exit status 1
      reports "Exit code 1", a one-second timeout reports it, and the shell's 127 for an unknown
      command is a failure with an error. */
  lemma ExecuteJobExamples(job: Row)
    ensures Worker.ExecuteJob(job, Worker.Exited(0, "test\n", "")) == Worker.Execution(true, Some("test\n"), None)
    ensures Worker.ExecuteJob(job, Worker.Exited(1, "", "")) == Worker.Execution(false, Some(""), Some("Exit code 1"))
    ensures job.timeout == Some(1) ==>
              Worker.ExecuteJob(job, Worker.TimedOut) == Worker.Execution(false, None, Some("Job timed out after 1 seconds"))
    ensures var e := Worker.ExecuteJob(job, Worker.Exited(127, "", "sh: 1: thisisnotarealcommand12345: not found"));
            !e.success && e.error.Some?
  {
    assert Numerals.DigitChar(1) == '1';
    assert Numerals.NatToString(1) == "1";
    assert Numerals.IntToString(1) == "1";
    assert Worker.ExitMessage(1, "") == "Exit code 1" by {
      assert "Exit code " + "1" + "" == "Exit code 1";
    }
    assert Worker.TimeoutMessage(Some(1)) == "Job timed out after 1 seconds" by {
      assert "Job timed out after " + "1" + " seconds" == "Job timed out after 1 seconds";
    }
  }

  /** A store holding the single Pending job "w", and that job acquirable at `now`. */
  method SingleJobStore(command: string, now: Time) returns (store: JobStore)
    ensures fresh(store) && store.Valid() && store.config == InitialConfig
    ensures store.jobs == map["w" := NewRow("w", command, DefaultMaxRetries, None, None, now)]
  {
    store := new JobStore();
    var _ := store.AddJob(command, Some("w"), None, None, None, "generated", now);
  }

  /** One worker pass over a queue holding one job whose command exits 0: the job ends
      Completed with the command's output and no lease. */
  method WorkerPassScenario(now: Time) returns (ok: Row)
    ensures ok.state == Completed && ok.output == Some("test\n") && ok.lockedBy.None?
  {
    var store := SingleJobStore("echo 'test'", now);
    assert ReleaseStale(store.jobs, now - 300, now) == store.jobs;
    assert Eligible(store.jobs["w"], now);
    var worker := new Worker.Worker("test-worker", store);
    var handled := worker.RunIteration(now, now + 1, (c: string, t: Option<int>) => Worker.Exited(0, "test\n", ""));
    ok := store.jobs["w"];
  }

  /** One worker pass over a queue holding one job whose command exits 1: the job goes back
      to Pending with the exit message as its error and a retry two seconds after the pass
      finished. */
  method WorkerFailScenario(now: Time) returns (failed: Row)
    ensures failed.state == Pending && failed.attempts == 1 && failed.error == Some("Exit code 1")
    ensures failed.runAt == Some(now + 1 + 2) && failed.lockedBy.None?
  {
    var store := SingleJobStore("exit 1", now);
    assert ReleaseStale(store.jobs, now - 300, now) == store.jobs;
    assert Eligible(store.jobs["w"], now);
    var worker := new Worker.Worker("test-worker", store);
    assert Numerals.DigitChar(1) == '1' && Numerals.NatToString(1) == "1";
    assert Worker.ExitMessage(1, "") == "Exit code 1" by {
      assert "Exit code " + "1" + "" == "Exit code 1";
    }
    assert GetConfig(store.config, "backoff_base") == 2 && Pow(2, 1) == 2;
    var handled := worker.RunIteration(now, now + 1, (c: string, t: Option<int>) => Worker.Exited(1, "", ""));
    failed := store.jobs["w"];
  }
}
