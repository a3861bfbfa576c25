/** The job lifecycle engine of storage.py: the `jobs` and `config` tables and the
    `JobStore` operations that read and rewrite them. */
module Storage {
  import opened Wrappers
  import opened Models

  /** `acquire_job` treats a lease older than five minutes as expired, whatever `release_stale_locks` uses. */
  const StaleLeaseSeconds := 5 * 60
  /** Default arguments of `release_stale_locks`, `cleanup_old_jobs` and `list_jobs`. */
  const DefaultStaleMinutes := 5
  const DefaultRetentionDays := 7
  const DefaultListLimit := 50
  /** What `get_config` answers for a key the config table does not hold. */
  const MissingConfigValue := 3
  const SecondsPerMinute := 60
  const SecondsPerDay := 24 * 60 * 60

  /** One row of the `jobs` table: the Job fields plus the two lease columns. */
  datatype Row = Row(
    id: string,
    command: string,
    state: JobState,
    attempts: nat,
    maxRetries: int,
    createdAt: Time,
    updatedAt: Time,
    error: Option<string>,
    output: Option<string>,
    runAt: Option<Time>,
    timeout: Option<int>,
    lockedBy: Option<string>,
    lockedAt: Option<Time>)

  /** The errors the store raises: an INSERT on a taken primary key, an unknown id,
      and a retry of a job outside the dead-letter state. */
  datatype StoreError = DuplicateId(id: string) | NotFound(id: string) | NotInDlq(id: string, state: JobState)

  /** The `jobs` table, keyed by its primary key. */
  type Table = map<string, Row>

  /** The `config` table. */
  type Config = map<string, int>

  /** The rows `_init_db` inserts into a new database. */
  const InitialConfig: Config := map["max_retries" := 3, "backoff_base" := 2]

  /** The lease fields are both set exactly when the job is Processing, and the enum's
      Failed state, which no operation assigns, never occurs. */
  predicate RowValid(r: Row)
  {
    && (r.lockedBy.Some? <==> r.state == Processing)
    && (r.lockedAt.Some? <==> r.state == Processing)
    && r.state != Failed
  }

  predicate TableValid(t: Table)
  {
    forall id :: id in t ==> t[id].id == id && RowValid(t[id])
  }

  /** Everything about a job that only its own creation sets: the id, the command, the
      retry budget, the creation time and the timeout. */
  predicate SameJob(a: Row, b: Row)
  {
    && a.id == b.id && a.command == b.command && a.maxRetries == b.maxRetries
    && a.createdAt == b.createdAt && a.timeout == b.timeout
  }

  // ---------------------------------------------------------------- configuration

  /** `get_config`: the stored value, or 3 for any key the table does not hold. */
  function GetConfig(c: Config, key: string): (v: int)
    ensures key in c ==> v == c[key]
    ensures key !in c ==> v == MissingConfigValue
  {
    if key in c then c[key] else MissingConfigValue
  }

  lemma InitialConfigValues(key: string)
    ensures GetConfig(InitialConfig, "max_retries") == 3
    ensures GetConfig(InitialConfig, "backoff_base") == 2
    ensures key != "max_retries" && key != "backoff_base" ==> GetConfig(InitialConfig, key) == 3
  {
  }

  /** `set_config(k, v)` then `get_config(k)` gives v, and leaves every other key as it was. */
  lemma GetConfigAfterSet(c: Config, key: string, value: int, other: string)
    ensures GetConfig(c[key := value], key) == value
    ensures other != key ==> GetConfig(c[key := value], other) == GetConfig(c, other)
  {
  }

  // ---------------------------------------------------------------- creation

  /** `job_id or str(uuid.uuid4())`: an absent or empty id is replaced by the generated one. */
  function ChosenId(jobId: Option<string>, generated: string): (id: string)
    ensures id == generated || (jobId.Some? && id == jobId.value && id != "")
    ensures jobId.Some? && jobId.value != "" ==> id == jobId.value
  {
    if jobId.Some? && jobId.value != "" then jobId.value else generated
  }

  /** An explicit retry budget, 0 included, wins over the configured default. */
  function ResolvedMaxRetries(maxRetries: Option<int>, c: Config): (m: int)
    ensures maxRetries.Some? ==> m == maxRetries.value
    ensures maxRetries.None? ==> m == GetConfig(c, "max_retries")
  {
    if maxRetries.Some? then maxRetries.value else GetConfig(c, "max_retries")
  }

  /** The row `add_job` inserts. */
  function NewRow(id: string, command: string, maxRetries: int, runAt: Option<Time>, timeout: Option<int>, now: Time): Row
  {
    Row(id, command, Pending, 0, maxRetries, now, now, None, None, runAt, timeout, None, None)
  }

  /** A new job keeps the invariant and is acquirable exactly from its `run_at` on,
      at once when it has none. */
  lemma NewRowEligibility(id: string, command: string, maxRetries: int, runAt: Option<Time>, timeout: Option<int>, now: Time, at: Time)
    ensures RowValid(NewRow(id, command, maxRetries, runAt, timeout, now))
    ensures Eligible(NewRow(id, command, maxRetries, runAt, timeout, now), at) <==> runAt.None? || runAt.value <= at
  {
  }

  /** With the initial configuration and no overrides, the inserted row is the Job dataclass
      built with its defaults, plus empty lease fields. */
  lemma NewRowIsDefaultJob(id: string, command: string, now: Time)
    ensures var r := NewRow(id, command, ResolvedMaxRetries(None, InitialConfig), None, None, now);
            Job(r.id, r.command, r.state, r.attempts, r.maxRetries, r.createdAt, r.updatedAt, r.error, r.output, r.runAt, r.timeout)
            == NewJob(id, command, now)
  {
  }

  // ---------------------------------------------------------------- acquisition

  /** The WHERE clause of `acquire_job`'s SELECT. A NULL `locked_at` compares as false. */
  predicate Eligible(r: Row, now: Time)
  {
    && r.state == Pending
    && (r.runAt.None? || r.runAt.value <= now)
    && (r.lockedBy.None? || (r.lockedAt.Some? && r.lockedAt.value < now - StaleLeaseSeconds))
  }

  predicate HasEligible(t: Table, now: Time)
  {
    exists id :: id in t && Eligible(t[id], now)
  }

  /** `ORDER BY created_at LIMIT 1`: an eligible job no other eligible job was created before.
      Jobs created at the same instant are not ordered further. */
  predicate IsFifoChoice(t: Table, now: Time, id: string)
  {
    && id in t && Eligible(t[id], now)
    && forall other :: other in t && Eligible(t[other], now) ==> t[id].createdAt <= t[other].createdAt
  }

  /** The lease `acquire_job` writes. */
  function Leased(r: Row, workerId: string, now: Time): Row
  {
    r.(state := Processing, lockedBy := Some(workerId), lockedAt := Some(now), updatedAt := now)
  }

  /** What one `acquire_job` call does to the table `t` and returns: nothing when no job is
      eligible; otherwise it leases a FIFO choice and returns the row as it was read, with only
      `state` patched. */
  predicate AcquireStep(t: Table, workerId: string, now: Time, job: Option<Row>, t': Table)
  {
    if job.None? then !HasEligible(t, now) && t' == t
    else
      var id := job.value.id;
      && IsFifoChoice(t, now, id)
      && job.value == t[id].(state := Processing)
      && t' == t[id := Leased(t[id], workerId, now)]
  }

  /** Every non-empty finite set has an element of least rank. */
  lemma {:induction false} MinimumExists(s: set<string>, rank: string -> int)
    requires s != {}
    ensures exists m :: m in s && forall o :: o in s ==> rank(m) <= rank(o)
    decreases |s|
  {
    var x :| x in s;
    if s != {x} {
      MinimumExists(s - {x}, rank);
      var m :| m in s - {x} && forall o :: o in s - {x} ==> rank(m) <= rank(o);
      if rank(x) < rank(m) {
        assert forall o :: o in s ==> rank(x) <= rank(o);
      } else {
        assert forall o :: o in s ==> rank(m) <= rank(o);
      }
    } else {
      assert forall o :: o in s ==> rank(x) <= rank(o);
    }
  }

  /** Whenever some job is eligible, a FIFO choice exists, so `acquire_job` returns a job. */
  lemma EarliestEligibleExists(t: Table, now: Time)
    requires HasEligible(t, now)
    ensures exists id :: IsFifoChoice(t, now, id)
  {
    var s := set id | id in t && Eligible(t[id], now);
    var rank := (id: string) => if id in t then t[id].createdAt else 0;
    var w :| w in t && Eligible(t[w], now);
    assert w in s;
    MinimumExists(s, rank);
    var m :| m in s && forall o :: o in s ==> rank(m) <= rank(o);
    forall o | o in t && Eligible(t[o], now)
      ensures t[m].createdAt <= t[o].createdAt
    {
      assert o in s && rank(o) == t[o].createdAt;
    }
    assert IsFifoChoice(t, now, m);
  }

  /** Under the invariant the lease clause of the WHERE filter is idle: a Pending row holds no lease. */
  lemma EligibleUnderInvariant(r: Row, now: Time)
    requires RowValid(r)
    ensures Eligible(r, now) <==> r.state == Pending && (r.runAt.None? || r.runAt.value <= now)
  {
  }

  /** A leased job is not eligible at any time, so a second `acquire_job` on a queue that
      held only that job finds nothing. */
  lemma SecondAcquireFindsNothing(t: Table, id: string, workerId: string, now: Time, later: Time)
    requires t.Keys == {id}
    ensures !HasEligible(t[id := Leased(t[id], workerId, now)], later)
  {
    var t' := t[id := Leased(t[id], workerId, now)];
    assert forall k :: k in t' ==> k == id;
  }

  // ---------------------------------------------------------------- completion

  /** The UPDATE of `complete_job`; it neither looks at the current state nor at the lease holder. */
  function CompletedRow(r: Row, output: Option<string>, now: Time): Row
  {
    r.(state := Completed, updatedAt := now, output := output, lockedBy := None, lockedAt := None)
  }

  // ---------------------------------------------------------------- failure

  /** `base ** e` for a non-negative exponent. */
  function Pow(base: int, e: nat): int
  {
    if e == 0 then 1 else base * Pow(base, e - 1)
  }

  lemma {:induction false} PowPositive(base: int, e: nat)
    requires base >= 1
    ensures Pow(base, e) >= 1
  {
    if e > 0 {
      PowPositive(base, e - 1);
      assert base * Pow(base, e - 1) >= Pow(base, e - 1);
    }
  }

  /** The two UPDATEs of `fail_job`: past its retry budget the job goes to the dead-letter state
      and keeps its old `run_at`; otherwise it is Pending again with `run_at = now + base ** attempts`. */
  function FailedRow(r: Row, error: string, now: Time, backoffBase: int): Row
  {
    var attempts := r.attempts + 1;
    if attempts > r.maxRetries then
      r.(state := Dead, attempts := attempts, error := Some(error), updatedAt := now,
         lockedBy := None, lockedAt := None)
    else
      r.(state := Pending, attempts := attempts, error := Some(error), updatedAt := now,
         runAt := Some(now + Pow(backoffBase, attempts)), lockedBy := None, lockedAt := None)
  }

  /** A failure counts one attempt, records the error, drops the lease and keeps the job;
      it ends in Dead exactly when the new attempt count exceeds the retry budget. */
  lemma FailedRowOutcome(r: Row, error: string, now: Time, backoffBase: int)
    ensures var f := FailedRow(r, error, now, backoffBase);
            && SameJob(f, r) && f.output == r.output && f.attempts == r.attempts + 1
            && f.error == Some(error) && f.updatedAt == now && RowValid(f)
            && (f.state == Dead <==> r.attempts + 1 > r.maxRetries)
            && (f.state != Dead ==> f.state == Pending)
  {
  }

  /** When a failed job is retried it becomes acquirable exactly once its backoff has elapsed;
      a job in the dead-letter state is never acquirable. */
  lemma FailedRowEligibility(r: Row, error: string, now: Time, backoffBase: int, at: Time)
    ensures Eligible(FailedRow(r, error, now, backoffBase), at)
            <==> r.attempts + 1 <= r.maxRetries && now + Pow(backoffBase, r.attempts + 1) <= at
  {
  }

  /** With a base of at least 1 the backoff is at least one second, so a failed job is not
      handed out again at the instant it failed. */
  lemma FailedJobNotImmediatelyEligible(r: Row, error: string, now: Time, backoffBase: int)
    requires backoffBase >= 1
    ensures !Eligible(FailedRow(r, error, now, backoffBase), now)
  {
    PowPositive(backoffBase, r.attempts + 1);
  }

  /** `fail_job` does not check the state: failing a Dead job counts one more attempt, so the
      attempt count is not bounded by `max_retries + 1`. */
  lemma FailingDeadJobKeepsCounting(r: Row, error: string, now: Time, backoffBase: int)
    requires r.state == Dead && r.attempts > r.maxRetries
    ensures FailedRow(r, error, now, backoffBase).state == Dead
    ensures FailedRow(r, error, now, backoffBase).attempts == r.attempts + 1
  {
  }

  // ---------------------------------------------------------------- dead-letter retry

  /** The UPDATE of `retry_job`; output, command and retry budget are kept. */
  function RetriedRow(r: Row, now: Time): Row
  {
    r.(state := Pending, attempts := 0, error := None, updatedAt := now, runAt := None)
  }

  /** A retried dead-letter job is immediately acquirable, at any time, with a fresh attempt count. */
  lemma RetriedRowEligible(r: Row, now: Time, at: Time)
    requires RowValid(r) && r.state == Dead
    ensures var p := RetriedRow(r, now);
            && RowValid(p) && Eligible(p, at) && p.attempts == 0 && p.error.None?
            && SameJob(p, r) && p.output == r.output
  {
  }

  // ---------------------------------------------------------------- stale leases

  /** The WHERE clause of `release_stale_locks`: a Processing job leased before the cutoff. */
  predicate IsStale(r: Row, cutoff: Time)
  {
    r.state == Processing && r.lockedAt.Some? && r.lockedAt.value < cutoff
  }

  function StaleIds(t: Table, cutoff: Time): set<string>
  {
    set id | id in t && IsStale(t[id], cutoff)
  }

  function Released(r: Row, now: Time): Row
  {
    r.(state := Pending, lockedBy := None, lockedAt := None, updatedAt := now)
  }

  /** The bulk UPDATE of `release_stale_locks`. Exactly the stale rows change; they become
      Pending without a lease and keep their attempt count; afterwards no stale lease is left. */
  function ReleaseStale(t: Table, cutoff: Time, now: Time): (t': Table)
    ensures t'.Keys == t.Keys
    ensures forall id :: id in t ==> (t'[id] == t[id] <==> id !in StaleIds(t, cutoff))
    ensures forall id :: id in StaleIds(t, cutoff) ==>
              t'[id].state == Pending && t'[id].lockedBy.None? && t'[id].lockedAt.None? && t'[id].updatedAt == now
    ensures forall id :: id in t ==> t'[id].error == t[id].error && t'[id].output == t[id].output
    ensures forall id :: id in t ==>
              SameJob(t'[id], t[id]) && t'[id].attempts == t[id].attempts && t'[id].runAt == t[id].runAt
    ensures StaleIds(t', cutoff) == {}
    ensures TableValid(t) ==> TableValid(t')
  {
    map id | id in t :: if IsStale(t[id], cutoff) then Released(t[id], now) else t[id]
  }

  /** A reclaimed job can be acquired again at once (provided its `run_at` has passed). */
  lemma ReclaimedIsAcquirable(t: Table, cutoff: Time, now: Time, id: string)
    requires TableValid(t) && id in StaleIds(t, cutoff)
    requires t[id].runAt.None? || t[id].runAt.value <= now
    ensures Eligible(ReleaseStale(t, cutoff, now)[id], now)
  {
  }

  // ---------------------------------------------------------------- retention

  /** The WHERE clause of `cleanup_old_jobs`: a Completed job last updated before the cutoff. */
  predicate IsExpired(r: Row, cutoff: Time)
  {
    r.state == Completed && r.updatedAt < cutoff
  }

  function ExpiredIds(t: Table, cutoff: Time): set<string>
  {
    set id | id in t && IsExpired(t[id], cutoff)
  }

  /** The DELETE of `cleanup_old_jobs`: exactly the expired rows go; every other row, in any
      other state or updated since the cutoff, stays as it was. */
  function Cleanup(t: Table, cutoff: Time): (t': Table)
    ensures t'.Keys == t.Keys - ExpiredIds(t, cutoff)
    ensures forall id :: id in t' ==> t'[id] == t[id]
    ensures forall id :: id in t && (t[id].state != Completed || t[id].updatedAt >= cutoff) ==> id in t'
    ensures TableValid(t) ==> TableValid(t')
  {
    map id | id in t && !IsExpired(t[id], cutoff) :: t[id]
  }

  /** The count `cleanup_old_jobs` returns is the number of rows the table lost. */
  lemma CleanupCount(t: Table, cutoff: Time)
    ensures |Cleanup(t, cutoff)| + |ExpiredIds(t, cutoff)| == |t|
  {
    var kept := Cleanup(t, cutoff).Keys;
    var gone := ExpiredIds(t, cutoff);
    assert kept + gone == t.Keys;
    assert kept * gone == {};
    assert |Cleanup(t, cutoff)| == |kept|;
  }

  // ---------------------------------------------------------------- queries

  /** `if state:` — an absent or empty filter lists every state. */
  predicate MatchesFilter(r: Row, filter: Option<string>)
  {
    filter.None? || filter.value == "" || StateValue(r.state) == filter.value
  }

  function MatchingIds(t: Table, filter: Option<string>): set<string>
  {
    set id | id in t && MatchesFilter(t[id], filter)
  }

  /** Every non-empty set of jobs has a newest member. */
  lemma NewestExists(t: Table, ids: set<string>)
    requires ids != {} && ids <= t.Keys
    ensures exists top :: top in ids && forall o :: o in ids ==> t[o].createdAt <= t[top].createdAt
  {
    var rank := (id: string) => if id in t then -t[id].createdAt else 0;
    MinimumExists(ids, rank);
    var m :| m in ids && forall o :: o in ids ==> rank(m) <= rank(o);
    forall o | o in ids
      ensures t[o].createdAt <= t[m].createdAt
    {
      assert rank(o) == -t[o].createdAt;
    }
  }

  /** The ids of `ids`, newest first. Jobs created at the same instant come in an unspecified order. */
  ghost function NewestFirst(t: Table, ids: set<string>): (order: seq<string>)
    requires ids <= t.Keys
    ensures |order| == |ids|
    ensures forall i :: 0 <= i < |order| ==> order[i] in ids
    ensures forall id :: id in ids ==> id in order
    ensures forall i, j :: 0 <= i < j < |order| ==> order[i] != order[j]
    ensures forall i, j :: 0 <= i < j < |order| ==> t[order[i]].createdAt >= t[order[j]].createdAt
    decreases |ids|
  {
    if ids == {} then []
    else
      NewestExists(t, ids);
      var top :| top in ids && forall o :: o in ids ==> t[o].createdAt <= t[top].createdAt;
      [top] + NewestFirst(t, ids - {top})
  }

  /** `LIMIT n`; SQLite reads a negative limit as no limit at all. */
  function Limit<T>(s: seq<T>, limit: int): (r: seq<T>)
    ensures |r| == if 0 <= limit < |s| then limit else |s|
    ensures r <= s
  {
    if 0 <= limit < |s| then s[..limit] else s
  }

  /** The rows of the listed ids, in order. */
  function RowsOf(t: Table, ids: seq<string>): (rows: seq<Row>)
    requires forall i :: 0 <= i < |ids| ==> ids[i] in t
    ensures |rows| == |ids|
    ensures forall i :: 0 <= i < |ids| ==> rows[i] == t[ids[i]]
  {
    if ids == [] then [] else [t[ids[0]]] + RowsOf(t, ids[1..])
  }

  /** The ids `list_jobs` returns: the matching ones, newest first, cut to the limit. */
  ghost function ListedIds(t: Table, filter: Option<string>, limit: int): (ids: seq<string>)
    ensures ids <= NewestFirst(t, MatchingIds(t, filter))
  {
    Limit(NewestFirst(t, MatchingIds(t, filter)), limit)
  }

  /** `list_jobs`: the matching jobs, newest first, at most `limit` of them. */
  ghost function ListJobs(t: Table, filter: Option<string>, limit: int): (rows: seq<Row>)
    requires TableValid(t)
    ensures var n := |MatchingIds(t, filter)|; |rows| == if 0 <= limit < n then limit else n
    ensures forall i :: 0 <= i < |rows| ==>
              rows[i].id in t && t[rows[i].id] == rows[i] && MatchesFilter(rows[i], filter)
    ensures forall i, j :: 0 <= i < j < |rows| ==> rows[i].id != rows[j].id
    ensures forall i, j :: 0 <= i < j < |rows| ==> rows[i].createdAt >= rows[j].createdAt
  {
    var ids := ListedIds(t, filter, limit);
    var full := NewestFirst(t, MatchingIds(t, filter));
    assert forall i :: 0 <= i < |ids| ==> ids[i] == full[i];
    RowsOf(t, ids)
  }

  function InState(t: Table, s: JobState): set<string>
  {
    set id | id in t && t[id].state == s
  }

  function CountInState(t: Table, s: JobState): nat
  {
    |InState(t, s)|
  }

  /** `get_stats`: a count per state value; a state no job is in has no entry (GROUP BY). */
  function GetStats(t: Table): (stats: map<string, nat>)
    ensures stats.Keys <= StateNames
    ensures forall s :: StateValue(s) in stats <==> CountInState(t, s) > 0
    ensures forall s :: StateValue(s) in stats ==> stats[StateValue(s)] == CountInState(t, s)
  {
    map name | name in StateNames && CountInState(t, ParseState(name).value) > 0 :: CountInState(t, ParseState(name).value)
  }

  lemma DisjointUnionSize(a: set<string>, b: set<string>)
    requires a * b == {}
    ensures |a + b| == |a| + |b|
  {
  }

  /** Every job is counted under exactly one state, and none under `failed`. */
  lemma StatsPartition(t: Table)
    requires TableValid(t)
    ensures CountInState(t, Pending) + CountInState(t, Processing) + CountInState(t, Completed)
            + CountInState(t, Dead) == |t|
  {
    var p, q, c, d := InState(t, Pending), InState(t, Processing), InState(t, Completed), InState(t, Dead);
    DisjointUnionSize(p, q);
    DisjointUnionSize(p + q, c);
    DisjointUnionSize(p + q + c, d);
    forall id | id in t
      ensures id in p + q + c + d
    {
      assert t[id].state != Failed;
    }
    assert p + q + c + d == t.Keys;
  }

  /** `get_stats` never reports the `failed` state, since no row is ever in it. */
  lemma StatsOmitFailed(t: Table)
    requires TableValid(t)
    ensures "failed" !in GetStats(t)
  {
    assert InState(t, Failed) == {};
    assert StateValue(Failed) == "failed";
  }

  /** Under a limit, the jobs `list_jobs` leaves out are no newer than any job it lists. */
  lemma ListJobsOmitsOnlyOlder(t: Table, filter: Option<string>, limit: int, id: string, i: int)
    requires TableValid(t)
    requires id in MatchingIds(t, filter)
    requires forall k :: 0 <= k < |ListJobs(t, filter, limit)| ==> ListJobs(t, filter, limit)[k].id != id
    requires 0 <= i < |ListJobs(t, filter, limit)|
    ensures t[id].createdAt <= ListJobs(t, filter, limit)[i].createdAt
  {
    var order := NewestFirst(t, MatchingIds(t, filter));
    var rows := ListJobs(t, filter, limit);
    var ids := ListedIds(t, filter, limit);
    var k :| 0 <= k < |order| && order[k] == id;
    assert rows[i] == t[ids[i]] && ids[i] == order[i];
    assert forall j :: 0 <= j < |rows| ==> order[j] != id by {
      forall j | 0 <= j < |rows|
        ensures order[j] != id
      {
        assert rows[j] == t[ids[j]] && ids[j] == order[j];
      }
    }
  }

  /** Without a cut, `list_jobs` lists every matching job. */
  lemma ListJobsComplete(t: Table, filter: Option<string>, limit: int, id: string)
    requires TableValid(t)
    requires limit < 0 || limit >= |MatchingIds(t, filter)|
    requires id in MatchingIds(t, filter)
    ensures exists i :: 0 <= i < |ListJobs(t, filter, limit)| && ListJobs(t, filter, limit)[i].id == id
  {
    var order := NewestFirst(t, MatchingIds(t, filter));
    var rows := ListJobs(t, filter, limit);
    var ids := ListedIds(t, filter, limit);
    var k :| 0 <= k < |order| && order[k] == id;
    assert ids == order;
    assert rows[k] == t[ids[k]];
  }

  // ---------------------------------------------------------------- the store

  /** `JobStore` over one database: the jobs table and the config table. */
  class JobStore {
    var jobs: Table
    var config: Config

    ghost predicate Valid()
      reads this
    {
      TableValid(jobs)
    }

    /** A store over a new database, as `_init_db` leaves it. */
    constructor ()
      ensures Valid() && jobs == map[] && config == InitialConfig
    {
      jobs := map[];
      config := InitialConfig;
    }

    /** `add_job`: inserts a Pending job; a taken id makes the INSERT fail and changes nothing.
        `generatedId` stands for the `uuid4` string used when no id is given. */
    method AddJob(command: string, jobId: Option<string>, maxRetries: Option<int>, runAt: Option<Time>,
                  timeout: Option<int>, generatedId: string, now: Time)
      returns (r: Result<string, StoreError>)
      requires Valid()
      modifies this
      ensures Valid() && config == old(config)
      ensures var id := ChosenId(jobId, generatedId);
              if id in old(jobs) then r == Err(DuplicateId(id)) && jobs == old(jobs)
              else r == Ok(id) && jobs == old(jobs)[id := NewRow(id, command, ResolvedMaxRetries(maxRetries, old(config)), runAt, timeout, now)]
    {
      var id := ChosenId(jobId, generatedId);
      var budget := ResolvedMaxRetries(maxRetries, config);
      if id in jobs {
        return Err(DuplicateId(id));
      }
      jobs := jobs[id := NewRow(id, command, budget, runAt, timeout, now)];
      r := Ok(id);
    }

    /** `acquire_job`: leases the eligible job created first to `workerId`. The returned row is
        the one the SELECT read, with only `state` patched, so it still shows no lease. */
    method AcquireJob(workerId: string, now: Time) returns (job: Option<Row>)
      requires Valid()
      modifies this
      ensures Valid() && config == old(config)
      ensures AcquireStep(old(jobs), workerId, now, job, jobs)
      ensures job.Some? ==> job.value.lockedBy.None? && job.value.lockedAt.None?
    {
      if !HasEligible(jobs, now) {
        return None;
      }
      EarliestEligibleExists(jobs, now);
      var id :| id in jobs && IsFifoChoice(jobs, now, id);
      var row := jobs[id];
      // The guarded UPDATE (`WHERE id = ? AND state = 'pending'`) always matches here: the row
      // was just read as Pending and nothing runs in between.
      jobs := jobs[id := Leased(row, workerId, now)];
      job := Some(row.(state := Processing));
    }

    /** `complete_job`: an unknown id matches no row and is a silent no-op. */
    method CompleteJob(id: string, output: Option<string>, now: Time)
      requires Valid()
      modifies this
      ensures Valid() && config == old(config)
      ensures jobs == if id in old(jobs) then old(jobs)[id := CompletedRow(old(jobs)[id], output, now)] else old(jobs)
    {
      if id in jobs {
        jobs := jobs[id := CompletedRow(jobs[id], output, now)];
      }
    }

    /** `fail_job`: raises NotFound for an unknown id; otherwise applies the retry policy
        with the configured backoff base. */
    method FailJob(id: string, error: string, now: Time) returns (r: Outcome<StoreError>)
      requires Valid()
      modifies this
      ensures Valid() && config == old(config)
      ensures id !in old(jobs) ==> r == Fail(NotFound(id)) && jobs == old(jobs)
      ensures id in old(jobs) ==> r == Pass && jobs == old(jobs)[id := FailedRow(old(jobs)[id], error, now, GetConfig(old(config), "backoff_base"))]
    {
      if id !in jobs {
        return Fail(NotFound(id));
      }
      var row := jobs[id];
      jobs := jobs[id := FailedRow(row, error, now, GetConfig(config, "backoff_base"))];
      r := Pass;
    }

    /** `retry_job`: moves a dead-letter job back to Pending; any other state, or an unknown id,
        raises and changes nothing. */
    method RetryJob(id: string, now: Time) returns (r: Outcome<StoreError>)
      requires Valid()
      modifies this
      ensures Valid() && config == old(config)
      ensures id !in old(jobs) ==> r == Fail(NotFound(id)) && jobs == old(jobs)
      ensures id in old(jobs) && old(jobs)[id].state != Dead ==>
                r == Fail(NotInDlq(id, old(jobs)[id].state)) && jobs == old(jobs)
      ensures id in old(jobs) && old(jobs)[id].state == Dead ==>
                r == Pass && jobs == old(jobs)[id := RetriedRow(old(jobs)[id], now)]
    {
      if id !in jobs {
        return Fail(NotFound(id));
      }
      if jobs[id].state != Dead {
        return Fail(NotInDlq(id, jobs[id].state));
      }
      jobs := jobs[id := RetriedRow(jobs[id], now)];
      r := Pass;
    }

    /** `set_config`: INSERT OR REPLACE. */
    method SetConfig(key: string, value: int)
      modifies this
      ensures config == old(config)[key := value] && jobs == old(jobs)
      ensures GetConfig(config, key) == value
    {
      config := config[key := value];
    }

    /** `release_stale_locks(minutes)`: returns the number of leases it reclaimed. */
    method ReleaseStaleLocks(minutes: int, now: Time) returns (count: nat)
      requires Valid()
      modifies this
      ensures Valid() && config == old(config)
      ensures jobs == ReleaseStale(old(jobs), now - minutes * SecondsPerMinute, now)
      ensures count == |StaleIds(old(jobs), now - minutes * SecondsPerMinute)|
    {
      var cutoff := now - minutes * SecondsPerMinute;
      count := |StaleIds(jobs, cutoff)|;
      jobs := ReleaseStale(jobs, cutoff, now);
    }

    /** `cleanup_old_jobs(days)`: returns the number of rows it deleted. */
    method CleanupOldJobs(days: int, now: Time) returns (count: nat)
      requires Valid()
      modifies this
      ensures Valid() && config == old(config)
      ensures jobs == Cleanup(old(jobs), now - days * SecondsPerDay)
      ensures count == |old(jobs)| - |jobs|
    {
      var cutoff := now - days * SecondsPerDay;
      CleanupCount(jobs, cutoff);
      count := |ExpiredIds(jobs, cutoff)|;
      jobs := Cleanup(jobs, cutoff);
    }
  }
}
