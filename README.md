# queuectl job lifecycle, in Dafny

queuectl is a small job queue. Jobs are shell commands kept in an SQLite database, and worker
processes lease them, run them and record the result. This project models the part of it that
decides what happens to a job:

- `JobStore` in storage.py is a class over two tables. The jobs table is a
  `map<string, Row>` keyed by job id. The config table is a `map<string, int>`. Each method
  rewrites these fields the way its SQL statement rewrites the rows: creation, lease
  acquisition in FIFO order, completion, failure with exponential backoff or the dead-letter
  state, dead-letter retry, stale-lease reclamation, retention cleanup, and the config
  reads and writes. The read-only queries `list_jobs` and `get_stats` are functions over the
  table.
- `Worker._execute_job` in queuectl/worker.py becomes a pure function. The process result is
  an input: an exit code with stdout and stderr, a timeout, or a launch error. One pass of the
  `Worker.run` loop becomes a method on a `Worker` class. It sweeps stale leases, acquires a
  job, and completes or fails it. The child process is a function parameter.
- `JobState`, the `Job` dataclass and its `to_dict`/`from_dict` codec in models.py become
  datatypes and functions. Their round trip is proved.

Time is an integer count of seconds, passed in as `now`. `datetime.isoformat` is modelled as the
decimal numeral of that count, and `fromisoformat` parses it back. This makes the codec round
trip a real statement. The uuid4 id that `add_job` falls back on is a parameter.

Throughout, the store keeps the invariant `TableValid`:

- every row is stored under its own id;
- a row holds a lease (`locked_by` and `locked_at`) exactly when it is Processing;
- no row is ever in the enum's unused `failed` state.

Every `JobStore` method and `Worker.RunIteration` preserves it.

The file scenarios.dfy replays the tests of test_queuectl.py against the model. Three of them
cannot pass against storage.py as written (see Findings).

`acquire_job` orders by `created_at` alone (storage.py:129), so when several eligible jobs
share a creation time `AcquireJob` may lease any of them.

## Model

| member | source | states |
|---|---|---|
| Models.ParseState | models.py:11-17 | `JobState(v)` succeeds exactly on the five state values and returns the member whose value is `v` |
| Models.ParseStateValue | models.py:11-17 | decoding a state's value gives the state back |
| Models.NewJob | models.py:27-37 | a Job built from id and command alone is Pending with 0 attempts, max_retries 3, both timestamps the clock's, and error, output, run_at and timeout None |
| Models.FromIsoFormatOfIsoFormat | models.py:47-48 | parsing a formatted timestamp gives it back |
| Models.ToDict | models.py:39-53 | the dict has exactly the eleven field keys and no lock keys; the state is its string value; run_at is null exactly when the job has none |
| Models.GetStr | models.py:59-60 | a required string field decodes exactly when present as a string, to that string |
| Models.GetInt | models.py:62-63 | a required integer field decodes exactly when present as an integer, to that integer |
| Models.GetTime | models.py:64-65 | a timestamp field parses exactly when its text is a valid timestamp |
| Models.GetState | models.py:61 | the state field decodes exactly when it is a string among the five values, to the state with that value |
| Models.GetOptStr | models.py:66-67 | `data.get(key)` on a string field: None exactly for a missing key or null, the string itself otherwise; an integer is refused |
| Models.GetOptInt | models.py:69 | `data.get("timeout")`: None exactly for a missing key or null, the integer itself otherwise; a string is refused |
| Models.GetRunAt | models.py:68 | run_at reads as None exactly when it is missing or falsy (null, "", 0); a non-empty text that parses decodes to that timestamp; decoding fails exactly on a non-zero integer or a non-empty text that does not parse |
| Models.FromDict | models.py:55-70 | a successful decode had every required key, and its id, command and state come from the dict |
| Models.FromDictToDict | models.py:39-70 | `from_dict(to_dict(j)) == j` for every Job |
| Models.FromDictWithoutOptionalKeys | models.py:66-69 | without the error, output, run_at and timeout keys, from_dict still succeeds and reads each as None |
| Models.FromDictNeedsRequiredKey | models.py:59-65 | a dict missing any of the seven required keys does not decode |
| Numerals.ParseDecimalOfIntToString | models.py:47-48 | the numeral of a time parses back to that time |
| Numerals.IntToStringInjective | queuectl/worker.py:112 | distinct integers render to distinct numerals |
| Storage.GetConfig | storage.py:247-252 | the stored value, or 3 for any key the config table lacks |
| Storage.InitialConfigValues | storage.py:76-81 | a new database has max_retries 3 and backoff_base 2; any other key reads as 3 |
| Storage.GetConfigAfterSet | storage.py:247-259 | after `set_config(k, v)`, `get_config(k)` is v, and every other key reads as before |
| Storage.ChosenId | storage.py:100 | the id is the caller's id when non-empty, otherwise the generated one |
| Storage.ResolvedMaxRetries | storage.py:101 | an explicit retry budget, 0 included, is used; otherwise the configured max_retries (3 when absent) |
| Storage.NewRowEligibility | storage.py:105-109 | the inserted row satisfies the invariant and is acquirable exactly from its run_at on, or at once when it has none |
| Storage.NewRowIsDefaultJob | storage.py:100-109 | with the initial config and no overrides, the inserted row is the Job dataclass with its defaults |
| Storage.EarliestEligibleExists | storage.py:124-136 | whenever some job is eligible, an eligible job with minimal created_at exists, so acquire_job returns a job |
| Storage.EligibleUnderInvariant | storage.py:126-128 | under the invariant, a job is eligible exactly when it is Pending and its run_at has passed; the lease clause never excludes a Pending row |
| Storage.SecondAcquireFindsNothing | storage.py:141-146 | once the only job is leased, no job is eligible at any time |
| Storage.PowPositive | storage.py:195 | the backoff `base ** attempts` is at least 1 for a base of at least 1 |
| Storage.FailedRowOutcome | storage.py:181-204 | a failure adds one attempt, records the error and the time, clears the lease and keeps the job's identity and output; the job is Dead exactly when the new count exceeds max_retries, and Pending otherwise |
| Storage.FailedRowEligibility | storage.py:184-204 | after a failure the job is acquirable at time `at` exactly when it was retried and `now + base ** attempts'` is at most `at` |
| Storage.FailedJobNotImmediatelyEligible | storage.py:194-204 | with a base of at least 1, a failed job cannot be acquired at the instant it failed |
| Storage.FailingDeadJobKeepsCounting | storage.py:174-191 | failing a Dead job counts another attempt and leaves it Dead, since fail_job does not check the state |
| Storage.RetriedRowEligible | storage.py:219-223 | a retried dead-letter job keeps the invariant and is acquirable at any time, with 0 attempts and no error; its command, budget and output are kept |
| Storage.ReleaseStale | storage.py:278-282 | the sweep changes exactly the stale rows; each becomes Pending without a lease, with `updated_at` set to now; every row keeps its identity, attempts, run_at, error and output; no stale lease is left; the invariant is kept |
| Storage.ReclaimedIsAcquirable | storage.py:278-282 | a reclaimed job is acquirable at once when its run_at has passed |
| Storage.Cleanup | storage.py:266-269 | exactly the Completed rows updated before the cutoff are deleted; every other row stays unchanged; the invariant is kept |
| Storage.CleanupCount | storage.py:266-270 | the rows kept plus the rows deleted are all the rows, so the count returned is the number deleted |
| Storage.NewestFirst | storage.py:230-234 | an ordering of the given ids, each exactly once, by non-increasing created_at |
| Storage.Limit | storage.py:230-235 | `LIMIT n` keeps a prefix of length n; a negative n keeps everything |
| Storage.ListJobs | storage.py:225-237 | list_jobs returns table rows matching the filter, distinct, newest first, and as many as match up to the limit |
| Storage.ListJobsOmitsOnlyOlder | storage.py:229-235 | a matching job left out by the limit is no newer than any job listed |
| Storage.ListJobsComplete | storage.py:225-237 | without a cut, every matching job is listed |
| Storage.GetStats | storage.py:239-245 | a state has an entry exactly when some job is in it, and the entry is that count |
| Storage.StatsPartition | storage.py:239-245 | the counts of the four states in use add up to the number of jobs |
| Storage.StatsOmitFailed | storage.py:239-245 | get_stats never reports `failed` |
| Storage.JobStore.constructor | storage.py:76-81 | a new store has no jobs and the initial config |
| Storage.JobStore.AddJob | storage.py:91-111 | inserts the new Pending row under the chosen id and returns that id; a taken id is rejected and nothing changes; no other row changes |
| Storage.JobStore.AcquireJob | storage.py:113-153 | returns None exactly when no job is eligible; otherwise leases an eligible job with minimal created_at to the worker at `now`, changes no other row, and returns the row as read with only state patched |
| Storage.JobStore.CompleteJob | storage.py:155-164 | the row becomes Completed with the given output and no lease; an unknown id changes nothing |
| Storage.JobStore.FailJob | storage.py:166-204 | an unknown id fails with NotFound and changes nothing; otherwise the row becomes its failed form under the configured backoff_base |
| Storage.JobStore.RetryJob | storage.py:206-223 | an unknown id fails with NotFound and a job outside the dead-letter state with NotInDlq, both leaving the store unchanged; a Dead job becomes Pending with 0 attempts, no error and no run_at |
| Storage.JobStore.SetConfig | storage.py:254-259 | the key now maps to the value and the jobs are untouched |
| Storage.JobStore.ReleaseStaleLocks | storage.py:272-283 | the table becomes the sweep of leases taken before `now - minutes`, and the count is the number of stale rows |
| Storage.JobStore.CleanupOldJobs | storage.py:261-270 | the table becomes the cleanup with the cutoff `now - days`, and the count is the number of rows deleted |
| Worker.ExecuteJob | queuectl/worker.py:87-123 | success exactly on exit code 0; error None exactly on success; stdout kept exactly when the process exited; the exit-code, timeout and launch-error messages |
| Worker.ExitMessageInjective | queuectl/worker.py:111-115 | the exit-code message determines the exit code and the stderr it was built from |
| Worker.FailureDeterminesOutcome | queuectl/worker.py:105-123 | a failed execution's output and error determine the process outcome that caused it |
| Worker.IterationResolvesJob | queuectl/worker.py:58-76 | after a pass that handled a job, the job holds no lease; it is Completed exactly when its command succeeded, and Pending or Dead otherwise; every other job is as the stale sweep left it |
| Worker.Worker.constructor | queuectl/worker.py:36-40 | a new worker is running with no current job |
| Worker.Worker.HandleShutdown | queuectl/worker.py:46-49 | the worker stops running; the current job is untouched |
| Worker.Worker.RunIteration | queuectl/worker.py:56-79 | the store goes through the sweep, then the acquisition, then exactly one of complete_job and fail_job on the acquired id; with no job, nothing past the sweep changes; current_job_id is None after a handled job |
| Scenarios.AddJobScenario | test_queuectl.py:39-48 | the explicit id is returned and the one listed job is Pending with its command |
| Scenarios.AcquireTwiceScenario | test_queuectl.py:50-62 | the first acquire leases job-1 as Processing; the second finds nothing |
| Scenarios.CompleteScenario | test_queuectl.py:64-73 | the one completed job is listed with its output |
| Scenarios.FailWithRetryScenario | test_queuectl.py:75-86 | one failure leaves the job Pending with one attempt and a run_at two seconds on |
| Scenarios.DlqTestAsWritten | test_queuectl.py:88-101 | rounds 0.1 s apart acquire only once; the job stays Pending with 1 attempt and the dead-letter list is empty |
| Scenarios.DlqThresholdScenario | test_queuectl.py:88-101 | with the backoff waited out, three failures under max_retries 2 end Dead with 3 attempts |
| Scenarios.RetryTestAsWritten | test_queuectl.py:103-111 | the acquisition right after the first failure returns None |
| Scenarios.RetryDlqScenario | test_queuectl.py:103-118 | with the backoff waited out, the job reaches the dead-letter state, and retry_job returns it to Pending with 0 attempts |
| Scenarios.ConfigScenario | test_queuectl.py:120-126 | each config value written is read back |
| Scenarios.CleanupScenario | test_queuectl.py:128-142 | five completed jobs aged ten days are all deleted by a seven-day cleanup |
| Scenarios.ExecuteJobExamples | test_queuectl.py:148-200 | exit 0 succeeds with stdout; exit 1 reports "Exit code 1"; a one-second timeout reports it; exit 127 is a failure with an error |
| Scenarios.NoOverlapScenario | test_queuectl.py:206-220 | ten workers acquire ten distinct jobs |
| Scenarios.ReleaseStaleScenario | test_queuectl.py:222-242 | a ten-minute-old lease is released by a five-minute sweep, and the job is acquired again |
| Scenarios.BackoffTestAsWritten | test_queuectl.py:248-272 | with rounds at the same instant, only one delay (2 s) is recorded |
| Scenarios.BackoffScenario | test_queuectl.py:248-272 | with rounds at the retry times, the delays are 2, 4 and 8 seconds |
| Scenarios.ScheduledScenario | test_queuectl.py:278-295 | a run_at an hour ahead blocks acquisition; one a second past allows it |
| Scenarios.WorkerPassScenario | queuectl/worker.py:58-79 | a pass over a command that exits 0 leaves the job Completed with its output and no lease |
| Scenarios.WorkerFailScenario | queuectl/worker.py:58-79 | a pass over `exit 1` leaves the job Pending with one attempt, the exit message and a retry two seconds after the pass ended |

## Left out

- SQLite plumbing: connections, WAL mode, commit and rollback, the DDL and the indices of
  `_init_db`. The initial state is an empty jobs table and the two config rows.
  `INSERT OR IGNORE` on an existing database is not modelled; the constructor always starts
  empty.
- Concurrency between worker processes, and with it the lost-race path of `acquire_job`: the
  `total_changes == 0` check (storage.py:149) never fires, because nothing runs between the
  SELECT and the UPDATE. The model is sequential, so its invariant shows one lease holder per
  store state, not mutual exclusion between processes.
- Storage.JobStore.AcquireJob: one `now` stands for the two `utcnow()` calls in the query, so
  the five-minute lease cutoff is `now - 300` exactly.
- Storage.JobStore.ReleaseStaleLocks: one `now` stands for the two `utcnow()` calls
  (storage.py:274-275), so the cutoff and the new `updated_at` come from the same instant.
- Worker.Worker.RunIteration: one `now` is passed to both the stale-lease sweep and the
  acquisition, where the source reads the clock separately in each (storage.py:274-275,
  then 122 and 132).
- Models.NewJob: one `now` stands for the two `default_factory=datetime.utcnow` calls
  (models.py:32-33), so `created_at` and `updated_at` are equal where Python's may differ.
- The clock, `isoformat` and ISO string comparison: timestamps are integers compared as
  integers. `datetime` overflow of a huge backoff (`OverflowError` in `timedelta`) is not
  modelled; the model's integers are unbounded.
- `uuid.uuid4()`, which becomes the `generatedId` parameter of `AddJob`.
- Config values are stored as text and read back with `int()`. The model stores integers, so
  a config value that is not an integer (only possible through direct database writes) is
  not represented.
- Models.FromDict: Python's dataclass accepts a value of any type in any field. The model
  refuses a value of the wrong kind with `WrongType`, so it is stricter than the source on
  ill-typed dicts. It agrees with the source on every dict `to_dict` produces and on missing keys.
- Models.GetStr: `data[key]` accepts a value of any type (models.py:59-60); the model refuses
  a non-string with `WrongType`.
- Models.GetInt: `data[key]` accepts a value of any type (models.py:62-63); the model refuses
  a non-integer with `WrongType`.
- Models.GetOptStr: `data.get(key)` accepts a value of any type (models.py:66-67); the model
  refuses an integer with `WrongType`.
- Models.GetOptInt: `data.get("timeout")` accepts a value of any type (models.py:69); the
  model refuses a string with `WrongType`.
- Models.GetTime: `fromisoformat` accepts many spellings. The model accepts decimal numerals
  with an optional minus sign, so two texts may name the same time.
- Process execution: `subprocess.run`, the signal handlers, `time.sleep`, logging, and the
  outer `while self.running` loop with its five-second back-off after an exception
  (queuectl/worker.py:42-44, 53-55, 78-85). `RunIteration` is one pass of that loop; the process
  result comes from the `run` parameter, and `finishedAt` is the clock when the process ends.
- `WorkerManager` and `start_single_worker` (multiprocessing, terminate, join and kill with a
  deadline), and queuectl/cli.py (presentation and argument parsing): neither is part of this
  model.
- The intended transitions (Pending to Processing to Completed, Pending or Dead) are not
  enforced by the code, and the model does not enforce them either. `complete_job` and `fail_job` check neither the current state nor the
  lease holder, so a worker can complete or fail a job leased to another worker, or a Dead one.
- `created_at <= updated_at` is not an invariant of the model, because `now` is a free
  parameter of each call and is not required to increase.
- Storage.ListJobs: among jobs created at the same instant, SQLite's order is unspecified;
  the model fixes no order for them (it is a ghost function choosing one), and every stated
  property holds for any order.

## Findings

| source | as written | input that shows it | evidently intended | confidence | as-written member | corrected member |
|---|---|---|---|---|---|---|
| test_queuectl.py:88-101 | the three acquire/fail rounds are 0.1 s apart, but each failure schedules the retry 2 s or more later, so the second and third `acquire_job` return None | `max_retries=2`, default `backoff_base` 2: after round 1, `run_at = now + 2` blocks both later rounds; the job stays Pending with 1 attempt and the dead-letter list is empty, against the asserted one job with 3 attempts | each round waits out the backoff, so the third failure moves the job to the dead-letter state with 3 attempts | not executed | Scenarios.DlqTestAsWritten | Scenarios.DlqThresholdScenario |
| test_queuectl.py:103-118 | the second `acquire_job` runs straight after the first `fail_job`, inside the 2 s backoff | `max_retries=1`: the second acquire returns None and `job["id"]` raises TypeError before `retry_job` is reached | the job is failed twice with the backoff waited out, reaches the dead-letter state, and `retry_job` resets it | not executed | Scenarios.RetryTestAsWritten | Scenarios.RetryDlqScenario |
| test_queuectl.py:248-272 | the three rounds run back to back, so only the first acquisition finds the job | `backoff_base=2`, `max_retries=5`: `retry_times == [2]`, against the asserted length 3 | each round runs at the job's retry time, giving delays 2, 4 and 8 | not executed | Scenarios.BackoffTestAsWritten | Scenarios.BackoffScenario |
