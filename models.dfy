/** The job record of models.py: the JobState enum, the Job dataclass and its dict codec. */
module Models {
  import opened Wrappers
  import Numerals

  /** Timestamps are whole seconds; the source's `datetime` values are abstracted to this. */
  type Time = int

  /** Lifecycle states. `Failed` exists in the enum but the store never assigns it. */
  datatype JobState = Pending | Processing | Completed | Failed | Dead

  /** The enum's string value, as stored in the database and emitted by `to_dict`. */
  function StateValue(s: JobState): string
  {
    match s
    case Pending => "pending"
    case Processing => "processing"
    case Completed => "completed"
    case Failed => "failed"
    case Dead => "dead"
  }

  const StateNames: set<string> := {"pending", "processing", "completed", "failed", "dead"}

  /** `JobState(v)`: the member whose value is `v`, or None where Python raises ValueError. */
  function ParseState(v: string): (r: Option<JobState>)
    ensures r.Some? <==> v in StateNames
    ensures r.Some? ==> StateValue(r.value) == v
  {
    if v == "pending" then Some(Pending)
    else if v == "processing" then Some(Processing)
    else if v == "completed" then Some(Completed)
    else if v == "failed" then Some(Failed)
    else if v == "dead" then Some(Dead)
    else None
  }

  lemma ParseStateValue(s: JobState)
    ensures ParseState(StateValue(s)) == Some(s)
  {
  }

  /** The Job dataclass. It carries no lock fields; those live only in the store's rows. */
  datatype Job = Job(
    id: string,
    command: string,
    state: JobState,
    attempts: int,
    maxRetries: int,
    createdAt: Time,
    updatedAt: Time,
    error: Option<string>,
    output: Option<string>,
    runAt: Option<Time>,
    timeout: Option<int>)

  const DefaultMaxRetries := 3

  /** `Job(id, command)` with every other field left to its default; both timestamps come from the clock. */
  function NewJob(id: string, command: string, now: Time): (j: Job)
    ensures j.id == id && j.command == command
    ensures j.state == Pending && j.attempts == 0 && j.maxRetries == DefaultMaxRetries
    ensures j.createdAt == now && j.updatedAt == now
    ensures j.error.None? && j.output.None? && j.runAt.None? && j.timeout.None?
  {
    Job(id, command, Pending, 0, DefaultMaxRetries, now, now, None, None, None, None)
  }

  /** The JSON-like values a job dict holds. */
  datatype Value = Null | Str(s: string) | Int(i: int)

  type Dict = map<string, Value>

  /** `datetime.isoformat`, abstracted to the decimal numeral of the timestamp. */
  function IsoFormat(t: Time): string
  {
    Numerals.IntToString(t)
  }

  /** `datetime.fromisoformat`: None where Python raises ValueError. */
  function FromIsoFormat(s: string): Option<Time>
  {
    Numerals.ParseDecimal(s)
  }

  lemma FromIsoFormatOfIsoFormat(t: Time)
    ensures FromIsoFormat(IsoFormat(t)) == Some(t)
    ensures IsoFormat(t) != ""
  {
    Numerals.ParseDecimalOfIntToString(t);
  }

  function StrOrNull(o: Option<string>): Value
  {
    if o.Some? then Str(o.value) else Null
  }

  function IntOrNull(o: Option<int>): Value
  {
    if o.Some? then Int(o.value) else Null
  }

  const RequiredKeys: set<string> :=
    {"id", "command", "state", "attempts", "max_retries", "created_at", "updated_at"}
  const OptionalKeys: set<string> := {"error", "output", "run_at", "timeout"}

  /** `Job.to_dict`. */
  function ToDict(j: Job): (d: Dict)
    ensures d.Keys == RequiredKeys + OptionalKeys
    ensures "locked_by" !in d && "locked_at" !in d
    ensures d["state"] == Str(StateValue(j.state))
    ensures d["run_at"] == Null <==> j.runAt.None?
  {
    map[
      "id" := Str(j.id),
      "command" := Str(j.command),
      "state" := Str(StateValue(j.state)),
      "attempts" := Int(j.attempts),
      "max_retries" := Int(j.maxRetries),
      "created_at" := Str(IsoFormat(j.createdAt)),
      "updated_at" := Str(IsoFormat(j.updatedAt)),
      "error" := StrOrNull(j.error),
      "output" := StrOrNull(j.output),
      "run_at" := if j.runAt.Some? then Str(IsoFormat(j.runAt.value)) else Null,
      "timeout" := IntOrNull(j.timeout)
    ]
  }

  /** Why `from_dict` raises: a missing key, an unknown state, an unparsable timestamp,
      or a value of a type the dataclass field cannot hold. */
  datatype DecodeError =
    | MissingKey(key: string)
    | InvalidState(value: Value)
    | InvalidTimestamp(key: string)
    | WrongType(key: string)

  /** `data[key]` for a string field. */
  function GetStr(d: Dict, key: string): (r: Result<string, DecodeError>)
    ensures r.Ok? <==> key in d && d[key].Str?
    ensures r.Ok? ==> d[key] == Str(r.value)
  {
    if key !in d then Err(MissingKey(key))
    else if d[key].Str? then Ok(d[key].s)
    else Err(WrongType(key))
  }

  /** `data[key]` for an integer field. */
  function GetInt(d: Dict, key: string): (r: Result<int, DecodeError>)
    ensures r.Ok? <==> key in d && d[key].Int?
    ensures r.Ok? ==> d[key] == Int(r.value)
  {
    if key !in d then Err(MissingKey(key))
    else if d[key].Int? then Ok(d[key].i)
    else Err(WrongType(key))
  }

  /** `datetime.fromisoformat(data[key])`. */
  function GetTime(d: Dict, key: string): (r: Result<Time, DecodeError>)
    ensures r.Ok? <==> key in d && d[key].Str? && FromIsoFormat(d[key].s).Some?
    ensures r.Ok? ==> FromIsoFormat(d[key].s) == Some(r.value)
  {
    if key !in d then Err(MissingKey(key))
    else if !d[key].Str? then Err(WrongType(key))
    else
      match FromIsoFormat(d[key].s)
      case Some(t) => Ok(t)
      case None => Err(InvalidTimestamp(key))
  }

  /** `JobState(data["state"])`. */
  function GetState(d: Dict): (r: Result<JobState, DecodeError>)
    ensures r.Ok? <==> "state" in d && d["state"].Str? && d["state"].s in StateNames
    ensures r.Ok? ==> d["state"] == Str(StateValue(r.value))
  {
    if "state" !in d then Err(MissingKey("state"))
    else if d["state"].Str? && ParseState(d["state"].s).Some? then Ok(ParseState(d["state"].s).value)
    else Err(InvalidState(d["state"]))
  }

  /** `data.get(key)` for an optional string field: a missing key reads as None. */
  function GetOptStr(d: Dict, key: string): (r: Result<Option<string>, DecodeError>)
    ensures r == Ok(None) <==> key !in d || d[key].Null?
    ensures r.Ok? && r.value.Some? ==> d[key] == Str(r.value.value)
    ensures r.Err? <==> key in d && d[key].Int?
  {
    if key !in d || d[key].Null? then Ok(None)
    else if d[key].Str? then Ok(Some(d[key].s))
    else Err(WrongType(key))
  }

  /** `data.get(key)` for an optional integer field. */
  function GetOptInt(d: Dict, key: string): (r: Result<Option<int>, DecodeError>)
    ensures r == Ok(None) <==> key !in d || d[key].Null?
    ensures r.Ok? && r.value.Some? ==> d[key] == Int(r.value.value)
    ensures r.Err? <==> key in d && d[key].Str?
  {
    if key !in d || d[key].Null? then Ok(None)
    else if d[key].Int? then Ok(Some(d[key].i))
    else Err(WrongType(key))
  }

  /** `fromisoformat(data["run_at"]) if data.get("run_at") else None`: every falsy value,
      the empty string and 0 included, reads as None. */
  function GetRunAt(d: Dict): (r: Result<Option<Time>, DecodeError>)
    ensures r == Ok(None) <==> "run_at" !in d || d["run_at"] == Null || d["run_at"] == Str("") || d["run_at"] == Int(0)
    ensures r.Ok? && r.value.Some? ==> d["run_at"].Str? && FromIsoFormat(d["run_at"].s) == Some(r.value.value)
    ensures "run_at" in d && d["run_at"].Str? && d["run_at"].s != "" && FromIsoFormat(d["run_at"].s).Some? ==>
              r == Ok(Some(FromIsoFormat(d["run_at"].s).value))
    ensures r.Err? <==> (&& "run_at" in d
                         && ((d["run_at"].Int? && d["run_at"].i != 0)
                             || (d["run_at"].Str? && d["run_at"].s != "" && FromIsoFormat(d["run_at"].s).None?)))
  {
    if "run_at" !in d then Ok(None)
    else
      match d["run_at"]
      case Null => Ok(None)
      case Int(i) => if i == 0 then Ok(None) else Err(WrongType("run_at"))
      case Str(s) =>
        if s == "" then Ok(None)
        else if FromIsoFormat(s).Some? then Ok(Some(FromIsoFormat(s).value))
        else Err(InvalidTimestamp("run_at"))
  }

  /** `Job.from_dict`; keys are read in the order of the constructor's keyword arguments. */
  function FromDict(d: Dict): (r: Result<Job, DecodeError>)
    ensures r.Ok? ==> RequiredKeys <= d.Keys
    ensures r.Ok? ==> d["state"] == Str(StateValue(r.value.state))
    ensures r.Ok? ==> d["id"] == Str(r.value.id) && d["command"] == Str(r.value.command)
  {
    var id :- GetStr(d, "id");
    var command :- GetStr(d, "command");
    var state :- GetState(d);
    var attempts :- GetInt(d, "attempts");
    var maxRetries :- GetInt(d, "max_retries");
    var createdAt :- GetTime(d, "created_at");
    var updatedAt :- GetTime(d, "updated_at");
    var error :- GetOptStr(d, "error");
    var output :- GetOptStr(d, "output");
    var runAt :- GetRunAt(d);
    var timeout :- GetOptInt(d, "timeout");
    Ok(Job(id, command, state, attempts, maxRetries, createdAt, updatedAt, error, output, runAt, timeout))
  }

  /** `from_dict(to_dict(j)) == j`: the codec loses nothing. */
  lemma FromDictToDict(j: Job)
    ensures FromDict(ToDict(j)) == Ok(j)
  {
    var d := ToDict(j);
    assert GetStr(d, "id") == Ok(j.id);
    assert GetStr(d, "command") == Ok(j.command);
    assert GetState(d) == Ok(j.state) by { ParseStateValue(j.state); }
    assert GetInt(d, "attempts") == Ok(j.attempts);
    assert GetInt(d, "max_retries") == Ok(j.maxRetries);
    assert GetTime(d, "created_at") == Ok(j.createdAt) by { FromIsoFormatOfIsoFormat(j.createdAt); }
    assert GetTime(d, "updated_at") == Ok(j.updatedAt) by { FromIsoFormatOfIsoFormat(j.updatedAt); }
    assert GetOptStr(d, "error") == Ok(j.error);
    assert GetOptStr(d, "output") == Ok(j.output);
    assert GetRunAt(d) == Ok(j.runAt) by {
      if j.runAt.Some? { FromIsoFormatOfIsoFormat(j.runAt.value); }
    }
    assert GetOptInt(d, "timeout") == Ok(j.timeout);
  }

  /** `from_dict` tolerates a dict without the optional keys and reads each of them as None. */
  lemma FromDictWithoutOptionalKeys(j: Job)
    ensures FromDict(ToDict(j) - OptionalKeys) == Ok(j.(error := None, output := None, runAt := None, timeout := None))
  {
    FromIsoFormatOfIsoFormat(j.createdAt);
    FromIsoFormatOfIsoFormat(j.updatedAt);
  }

  /** Each required key is required: without it `from_dict` raises, whatever else the dict holds. */
  lemma FromDictNeedsRequiredKey(d: Dict, key: string)
    requires key in RequiredKeys && key !in d
    ensures FromDict(d).Err?
  {
  }
}
