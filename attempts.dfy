/** `DataExtractor._get_one` of `simulation_visualizer/file/extractor.py`: one
    job, that is one parser tried on one (host, path) target. The parser's
    capability check runs first; extraction is then retried a bounded number of
    times. What each extraction call would return is given as `attempts`, one entry
    per call, since it depends on remote I/O. */
module Attempts {
  import opened Errors
  import opened Files
  import Plugin

  /** `MAX_PARSE_ATTEMPTS` */
  const MaxParseAttempts := 3

  /** What a job hands back to the dispatcher: a value, an exception returned as a
      value, or an exception that escaped `_get_one` and is re-raised by
      `future.result()`. */
  datatype JobOutcome<T> = Data(value: T) | Failed(error: Exc) | Crashed(error: Exc)

  /** `parser.can_handle(path, host)` with the file map as the remote side. */
  function CanHandleResult(sig: Plugin.Signature, remote: Remote, host: string, path: string): (r: Result<bool>)
    ensures r.Err? <==> (host, path) !in remote
    ensures r.Err? ==> r.error == FileNotFound(path)
  {
    if (host, path) in remote then Ok(Plugin.Handles(sig, remote[(host, path)]))
    else Err(FileNotFound(path))
  }

  /** The retry loop: the calls go on until one succeeds or none is left; the
      value kept is that success, or else the last failure. */
  function Retried<T>(xs: seq<Result<T>>): (r: Result<T>)
    requires xs != []
    ensures r.Ok? <==> exists k :: 0 <= k < |xs| && xs[k].Ok?
    ensures r.Ok? ==> exists k :: 0 <= k < |xs| && xs[k] == r && forall j :: 0 <= j < k ==> xs[j].Err?
    ensures r.Err? ==> r == xs[|xs| - 1]
  {
    if |xs| == 1 || xs[0].Ok? then xs[0]
    else
      var r := Retried(xs[1..]);
      assert forall k :: 1 <= k < |xs| ==> xs[k] == xs[1..][k - 1];
      r
  }

  /** What `_get_one` gives back for a capability answer and the outcomes of its
      extraction calls. */
  function JobSpec<T>(can: Result<bool>, attempts: seq<Result<T>>): JobOutcome<T>
    requires |attempts| == MaxParseAttempts
  {
    match can
    case Err(e) => Crashed(e)
    case Ok(false) => Failed(CannotHandle(""))
    case Ok(true) =>
      match Retried(attempts)
      case Ok(v) => Data(v)
      case Err(e) => Failed(e)
  }

  /** `_get_one(parser, what, host, path)`. `calls` counts the extraction calls.
      The session id is written only after a positive capability check. */
  method GetOne<T>(cls: Plugin.ParserClass, sessionId: string, remote: Remote, host: string, path: string,
                   attempts: seq<Result<T>>)
    returns (o: JobOutcome<T>, calls: nat)
    requires |attempts| == MaxParseAttempts
    modifies cls
    ensures o == JobSpec(CanHandleResult(cls.desc.header, remote, host, path), attempts)
    ensures CanHandleResult(cls.desc.header, remote, host, path) != Ok(true) ==> calls == 0
    ensures calls <= MaxParseAttempts
    ensures forall k :: 0 <= k < calls - 1 ==> attempts[k].Err?
    ensures o.Data? ==> calls > 0 && attempts[calls - 1] == Ok(o.value)
    ensures cls.sessionId ==
      if CanHandleResult(cls.desc.header, remote, host, path) == Ok(true) then Some(sessionId)
      else old(cls.sessionId)
  {
    var can := Plugin.CanHandle(cls, remote, host, path);
    assert can == CanHandleResult(cls.desc.header, remote, host, path);
    if can.Err? {
      return Crashed(can.error), 0;
    }
    if !can.value {
      return Failed(CannotHandle("")), 0;
    }
    cls.SetSessionId(sessionId);
    var data;
    data, calls := Retry(attempts);
    o := if data.Ok? then Data(data.value) else Failed(data.error);
  }

  /** The `for attempt in range(MAX_PARSE_ATTEMPTS)` loop of `_get_one`: the kept
      result is `Retried(attempts)`, from the last call made, and every earlier call
      failed. */
  method Retry<T>(attempts: seq<Result<T>>) returns (data: Result<T>, calls: nat)
    requires |attempts| == MaxParseAttempts
    ensures 0 < calls <= MaxParseAttempts
    ensures data == attempts[calls - 1] && data == Retried(attempts)
    ensures forall k :: 0 <= k < calls - 1 ==> attempts[k].Err?
  {
    calls := 0;
    data := attempts[0];
    while calls < MaxParseAttempts
      invariant calls <= MaxParseAttempts
      invariant calls > 0 ==> data == attempts[calls - 1]
      invariant forall k :: 0 <= k < calls ==> attempts[k].Err?
    {
      data := attempts[calls];
      calls := calls + 1;
      if data.Ok? {
        break;
      }
    }
    RetriedAt(attempts, calls - 1);
  }

  /** The retry loop keeps the call at index `k` when every earlier call failed
      and this one succeeded or was the last. */
  lemma {:induction false} RetriedAt<T>(xs: seq<Result<T>>, k: nat)
    requires k < |xs|
    requires forall j :: 0 <= j < k ==> xs[j].Err?
    requires xs[k].Ok? || k == |xs| - 1
    ensures Retried(xs) == xs[k]
  {
    if k > 0 {
      assert forall j :: 0 <= j < k - 1 ==> xs[1..][j] == xs[j + 1];
      RetriedAt(xs[1..], k - 1);
    }
  }

  /** The four ways a job ends, and what decides each. */
  lemma {:induction false} JobOutcomes<T>(can: Result<bool>, attempts: seq<Result<T>>)
    requires |attempts| == MaxParseAttempts
    ensures JobSpec(can, attempts).Crashed? <==> can.Err?
    ensures can == Ok(false) ==> JobSpec(can, attempts) == Failed(CannotHandle(""))
    ensures can == Ok(true) ==>
      (JobSpec(can, attempts).Data? <==> exists k :: 0 <= k < MaxParseAttempts && attempts[k].Ok?)
    ensures can == Ok(true) && (forall k :: 0 <= k < MaxParseAttempts ==> attempts[k].Err?) ==>
      JobSpec(can, attempts) == Failed(attempts[MaxParseAttempts - 1].error)
  {
    if can == Ok(true) {
      var r := Retried(attempts);
      if forall k :: 0 <= k < MaxParseAttempts ==> attempts[k].Err? {
        assert r == attempts[MaxParseAttempts - 1];
      }
    }
  }
}
