/** `DataExtractor` of the older `simulation_visualizer/parser.py`: one (host, path)
    file, every registered parser tried on it, and the first parser that
    succeeds decides the answer. A job hands back a pair `(data, error)`. */
module LegacyExtractor {
  import opened Errors
  import opened Files
  import Plugin
  import LegacyPlugin
  import Attempts

  /** `MAX_PARSE_ATTEMPTS` of `parser.py` */
  const MaxParseAttempts := 5

  /** The message `ThreadPoolExecutor` raises for a pool of zero workers. */
  const MsgWorkers := "max_workers must be greater than 0"

  /** What `_get_one` returns: `(data, None)` on success, `(None, error)` otherwise. */
  datatype Pair<T> = Pair(data: Option<T>, error: Option<Exc>)

  /** A job's end: its pair, or an exception raised out of `_get_one`. */
  datatype Outcome<T> = Completed(pair: Pair<T>) | Crashed(error: Exc)

  /** What `_get_async` gives: the data, an exception (or exception class) returned
      as the value, or an exception raised out of the call. */
  datatype Answer<T> = Value(data: Option<T>) | Returned(error: Exc) | Raised(error: Exc)

  /** The one-line `can_handle(path, host)` with the file map as the remote side. */
  function CanHandleResult(sig: Plugin.Signature, remote: Remote, host: string, path: string): (r: Result<bool>)
    ensures r.Err? <==> (host, path) !in remote
    ensures r.Ok? ==> r.value == Plugin.Matches(sig, LineAt(remote[(host, path)], 0))
  {
    if (host, path) in remote then Ok(Plugin.Matches(sig, LineAt(remote[(host, path)], 0)))
    else Err(FileNotFound(path))
  }

  /** What `_get_one` ends with for a capability answer and the outcomes of its
      extraction calls. */
  function OneSpec<T>(can: Result<bool>, attempts: seq<Result<T>>): (o: Outcome<T>)
    requires |attempts| == MaxParseAttempts
    ensures o.Crashed? ==> can.Err? && o.error == can.error
    ensures o.Completed? ==> (o.pair.data.Some? <==> o.pair.error.None?)
    ensures o.Completed? && o.pair.data.Some? ==>
      can == Ok(true) && Attempts.Retried(attempts) == Ok(o.pair.data.value)
  {
    match can
    case Err(e) => Crashed(e)
    case Ok(false) => Completed(Pair(None, Some(ExceptionClass)))
    case Ok(true) =>
      match Attempts.Retried(attempts)
      case Ok(v) => Completed(Pair(Some(v), None))
      case Err(e) => Completed(Pair(None, Some(e)))
  }

  /** The pair for the result of the retry loop. */
  function PairOf<T>(r: Result<T>): (p: Pair<T>)
    ensures p.data.Some? <==> p.error.None?
    ensures r.Ok? <==> p.error.None?
  {
    match r
    case Ok(v) => Pair(Some(v), None)
    case Err(e) => Pair(None, Some(e))
  }

  /** `_get_one(parser, what)`. `calls` counts the extraction calls. */
  method GetOne<T>(cls: Plugin.ParserClass, sessionId: string, remote: Remote, host: string, path: string,
                   attempts: seq<Result<T>>)
    returns (o: Outcome<T>, calls: nat)
    requires |attempts| == MaxParseAttempts
    modifies cls
    ensures o == OneSpec(CanHandleResult(cls.desc.header, remote, host, path), attempts)
    ensures CanHandleResult(cls.desc.header, remote, host, path) != Ok(true) ==> calls == 0
    ensures calls <= MaxParseAttempts
    ensures forall k :: 0 <= k < calls - 1 ==> attempts[k].Err?
    ensures o.Completed? && o.pair.error.None? ==> calls > 0 && attempts[calls - 1] == Ok(o.pair.data.value)
    ensures cls.sessionId ==
      if CanHandleResult(cls.desc.header, remote, host, path) == Ok(true) then Some(sessionId)
      else old(cls.sessionId)
  {
    var can := LegacyPlugin.CanHandle(cls, remote, host, path);
    if can.Err? {
      return Crashed(can.error), 0;
    }
    if !can.value {
      return Completed(Pair(None, Some(ExceptionClass))), 0;
    }
    cls.SetSessionId(sessionId);
    var p;
    p, calls := Retry(attempts);
    o := Completed(p);
  }

  /** The `for attempt in range(MAX_PARSE_ATTEMPTS)` loop of `_get_one`: it stops
      at the first success, every earlier call failed, and the pair is the one for
      `Retried(attempts)`. */
  method Retry<T>(attempts: seq<Result<T>>) returns (p: Pair<T>, calls: nat)
    requires |attempts| == MaxParseAttempts
    ensures 0 < calls <= MaxParseAttempts
    ensures forall k :: 0 <= k < calls - 1 ==> attempts[k].Err?
    ensures attempts[calls - 1] == Attempts.Retried(attempts) && p == PairOf(attempts[calls - 1])
  {
    var error: Option<Exc> := None;
    calls := 0;
    while calls < MaxParseAttempts
      invariant calls <= MaxParseAttempts
      invariant forall k :: 0 <= k < calls ==> attempts[k].Err?
      invariant calls > 0 ==> error == Some(attempts[calls - 1].error)
    {
      var data := attempts[calls];
      calls := calls + 1;
      if data.Ok? {
        Attempts.RetriedAt(attempts, calls - 1);
        return Pair(Some(data.value), None), calls;
      }
      error := Some(data.error);
    }
    Attempts.RetriedAt(attempts, MaxParseAttempts - 1);
    return Pair(None, error), calls;
  }

  /** The completion loop: the first pair without an error gives its data; when
      the jobs run out the error of the last one is returned. */
  function Collect<T>(outs: seq<Outcome<T>>): (r: Answer<T>)
    requires outs != []
    ensures r.Value? ==>
      exists k :: 0 <= k < |outs| && outs[k] == Completed(Pair(r.data, None))
        && forall j :: 0 <= j < k ==> outs[j].Completed? && outs[j].pair.error.Some?
    ensures r.Returned? ==>
      (forall j :: 0 <= j < |outs| ==> outs[j].Completed? && outs[j].pair.error.Some?)
        && outs[|outs| - 1].pair.error == Some(r.error)
    ensures r.Raised? ==>
      exists k :: 0 <= k < |outs| && outs[k] == Crashed(r.error)
        && forall j :: 0 <= j < k ==> outs[j].Completed? && outs[j].pair.error.Some?
  {
    match outs[0]
    case Crashed(e) => Raised(e)
    case Completed(p) =>
      if p.error.None? then Value(p.data)
      else if |outs| == 1 then Returned(p.error.value)
      else
        var r := Collect(outs[1..]);
        assert forall j :: 1 <= j < |outs| ==> outs[j] == outs[1..][j - 1];
        r
  }

  /** `order` lists each of `n` job indices exactly once. */
  predicate IsOrder(order: seq<nat>, n: nat) {
    |order| == n
    && (forall i :: 0 <= i < |order| ==> order[i] < n)
    && (forall i, j :: 0 <= i < j < |order| ==> order[i] != order[j])
  }

  /** Five extraction outcomes for each of `n` parsers. */
  predicate AttemptsFor<T>(attempts: seq<seq<Result<T>>>, n: nat) {
    |attempts| == n && forall k :: 0 <= k < n ==> |attempts[k]| == MaxParseAttempts
  }

  /** The jobs' outcomes in completion order. */
  function Outcomes<T>(parsers: seq<Plugin.ParserClass>, remote: Remote, host: string, path: string,
                       attempts: seq<seq<Result<T>>>, order: seq<nat>): (outs: seq<Outcome<T>>)
    requires AttemptsFor(attempts, |parsers|) && forall i :: 0 <= i < |order| ==> order[i] < |parsers|
    ensures |outs| == |order|
    ensures forall k :: 0 <= k < |outs| && outs[k].Crashed? ==> outs[k].error == FileNotFound(path)
    decreases |order|
  {
    if order == [] then []
    else
      var first := OneSpec(CanHandleResult(parsers[order[0]].desc.header, remote, host, path), attempts[order[0]]);
      [first] + Outcomes(parsers, remote, host, path, attempts, order[1..])
  }

  /** The `k`-th job to complete is the one for parser `order[k]`. */
  lemma {:induction false} OutcomeAt<T>(parsers: seq<Plugin.ParserClass>, remote: Remote, host: string, path: string,
                                        attempts: seq<seq<Result<T>>>, order: seq<nat>, k: nat)
    requires AttemptsFor(attempts, |parsers|) && forall i :: 0 <= i < |order| ==> order[i] < |parsers|
    requires k < |order|
    ensures Outcomes(parsers, remote, host, path, attempts, order)[k]
      == OneSpec(CanHandleResult(parsers[order[k]].desc.header, remote, host, path), attempts[order[k]])
    decreases k
  {
    if k > 0 {
      OutcomeAt(parsers, remote, host, path, attempts, order[1..], k - 1);
    }
  }

  /** What `_get_async(what)` ends with. */
  function GetAsyncSpec<T>(parsers: seq<Plugin.ParserClass>, remote: Remote, host: string, path: string,
                           attempts: seq<seq<Result<T>>>, order: seq<nat>): (r: Answer<T>)
    requires AttemptsFor(attempts, |parsers|) && IsOrder(order, |parsers|)
    ensures r.Raised? ==>
      (parsers == [] && r.error == ValueError(MsgWorkers)) || (parsers != [] && r.error == FileNotFound(path))
  {
    if parsers == [] then Raised(ValueError(MsgWorkers))
    else Collect(Outcomes(parsers, remote, host, path, attempts, order))
  }

  /** `_get_async(what)`: one job per parser, consumed in the order `order`. */
  method GetAsync<T>(parsers: seq<Plugin.ParserClass>, sessionId: string, remote: Remote, host: string, path: string,
                     attempts: seq<seq<Result<T>>>, order: seq<nat>)
    returns (r: Answer<T>)
    requires AttemptsFor(attempts, |parsers|) && IsOrder(order, |parsers|)
    modifies parsers
    ensures r == GetAsyncSpec(parsers, remote, host, path, attempts, order)
    ensures forall p :: p in parsers ==> p.sessionId == old(p.sessionId) || p.sessionId == Some(sessionId)
  {
    if parsers == [] {
      return Raised(ValueError(MsgWorkers));
    }
    ghost var outs := Outcomes(parsers, remote, host, path, attempts, order);
    var i := 0;
    var error: Option<Exc> := None;
    while i < |order|
      invariant i <= |order|
      invariant forall j :: 0 <= j < i ==> outs[j].Completed? && outs[j].pair.error.Some?
      invariant i > 0 ==> error == outs[i - 1].pair.error
      invariant forall p :: p in parsers ==> p.sessionId == old(p.sessionId) || p.sessionId == Some(sessionId)
    {
      var o := Job(parsers[order[i]], sessionId, remote, host, path, attempts[order[i]]);
      OutcomeAt(parsers, remote, host, path, attempts, order, i);
      assert o == outs[i];
      CollectStep(outs, i);
      match o {
        case Crashed(e) =>
          return Raised(e);
        case Completed(p) =>
          if p.error.None? {
            return Value(p.data);
          }
          error := p.error;
      }
      i := i + 1;
    }
    return Returned(error.value);
  }

  /** One job submitted to the pool: `_get_one` for one parser, with only its
      outcome and its effect on the parser's session id kept. */
  method Job<T>(cls: Plugin.ParserClass, sessionId: string, remote: Remote, host: string, path: string,
                attempts: seq<Result<T>>)
    returns (o: Outcome<T>)
    requires |attempts| == MaxParseAttempts
    modifies cls
    ensures o == OneSpec(CanHandleResult(cls.desc.header, remote, host, path), attempts)
    ensures cls.sessionId == old(cls.sessionId) || cls.sessionId == Some(sessionId)
  {
    var calls;
    o, calls := GetOne(cls, sessionId, remote, host, path, attempts);
  }

  /** One turn of the completion loop once the jobs before `i` all failed. */
  lemma CollectStep<T>(outs: seq<Outcome<T>>, i: nat)
    requires i < |outs|
    requires forall j :: 0 <= j < i ==> outs[j].Completed? && outs[j].pair.error.Some?
    ensures outs[i].Crashed? ==> Collect(outs) == Raised(outs[i].error)
    ensures outs[i].Completed? && outs[i].pair.error.None? ==> Collect(outs) == Value(outs[i].pair.data)
    ensures outs[i].Completed? && outs[i].pair.error.Some? && i == |outs| - 1 ==>
      Collect(outs) == Returned(outs[i].pair.error.value)
  {
    CollectSkips(outs, i);
    assert outs[i..][0] == outs[i];
  }

  /** Jobs that completed with an error are passed over. */
  lemma {:induction false} CollectSkips<T>(outs: seq<Outcome<T>>, i: nat)
    requires i < |outs|
    requires forall j :: 0 <= j < i ==> outs[j].Completed? && outs[j].pair.error.Some?
    ensures Collect(outs) == Collect(outs[i..])
    decreases i
  {
    if i > 0 {
      assert forall j :: 0 <= j < i - 1 ==> outs[1..][j] == outs[j + 1];
      CollectSkips(outs[1..], i - 1);
      assert outs[1..][i - 1..] == outs[i..];
    }
  }

  /** A `DataExtractor` of `parser.py`, bound to one file. */
  class DataExtractor {
    const parsers: seq<Plugin.ParserClass>
    const path: string
    const host: string
    const sessionId: string

    constructor (parsers: seq<Plugin.ParserClass>, path: string, host: string, sessionId: string)
      ensures this.parsers == parsers && this.path == path && this.host == host
      ensures this.sessionId == sessionId
    {
      this.parsers := parsers;
      this.path := path;
      this.host := host;
      this.sessionId := sessionId;
    }

    /** `extract()` and `header()`: `_get_async` with the data or the header as
        what the extraction calls produce, and no combination step. */
    method Extract<T>(remote: Remote, attempts: seq<seq<Result<T>>>, order: seq<nat>) returns (r: Answer<T>)
      requires AttemptsFor(attempts, |parsers|) && IsOrder(order, |parsers|)
      modifies parsers
      ensures r == GetAsyncSpec(parsers, remote, host, path, attempts, order)
    {
      r := GetAsync(parsers, sessionId, remote, host, path, attempts, order);
    }
  }

  // ---------------------------------------------------------------------------
  // Properties

  /** The ways a job ends: a missing file escapes, a rejected file gives the class
      `Exception` as the error, and otherwise the first success or the last
      failure of five calls. */
  lemma {:induction false} OneOutcomes<T>(can: Result<bool>, attempts: seq<Result<T>>)
    requires |attempts| == MaxParseAttempts
    ensures OneSpec(can, attempts).Crashed? <==> can.Err?
    ensures can == Ok(false) ==> OneSpec(can, attempts) == Completed(Pair(None, Some(ExceptionClass)))
    ensures can == Ok(true) && (forall k :: 0 <= k < MaxParseAttempts ==> attempts[k].Err?) ==>
      OneSpec(can, attempts) == Completed(Pair(None, Some(attempts[MaxParseAttempts - 1].error)))
    ensures forall k ::
      (0 <= k < MaxParseAttempts && can == Ok(true) && attempts[k].Ok?
        && (forall j :: 0 <= j < k ==> attempts[j].Err?)) ==>
      OneSpec(can, attempts) == Completed(Pair(Some(attempts[k].value), None))
  {
    forall k | 0 <= k < MaxParseAttempts && can == Ok(true) && attempts[k].Ok?
      && (forall j :: 0 <= j < k ==> attempts[j].Err?)
      ensures OneSpec(can, attempts) == Completed(Pair(Some(attempts[k].value), None))
    {
      Attempts.RetriedAt(attempts, k);
    }
    if can == Ok(true) && forall k :: 0 <= k < MaxParseAttempts ==> attempts[k].Err? {
      Attempts.RetriedAt(attempts, MaxParseAttempts - 1);
    }
  }

  /** When every parser reads the file and none accepts its first line, the class
      `Exception` itself is returned, whatever the completion order. */
  lemma NoParserAccepts<T>(parsers: seq<Plugin.ParserClass>, remote: Remote, host: string, path: string,
                           attempts: seq<seq<Result<T>>>, order: seq<nat>)
    requires AttemptsFor(attempts, |parsers|) && IsOrder(order, |parsers|)
    requires parsers != [] && (host, path) in remote
    requires forall i :: 0 <= i < |parsers| ==> !Plugin.Matches(parsers[i].desc.header, LineAt(remote[(host, path)], 0))
    ensures GetAsyncSpec(parsers, remote, host, path, attempts, order) == Returned(ExceptionClass)
  {
    var outs := Outcomes(parsers, remote, host, path, attempts, order);
    forall k | 0 <= k < |outs|
      ensures outs[k] == Completed(Pair(None, Some(ExceptionClass)))
    {
      OutcomeAt(parsers, remote, host, path, attempts, order, k);
    }
    AllRejected(outs);
  }

  lemma {:induction false} AllRejected<T>(outs: seq<Outcome<T>>)
    requires outs != []
    requires forall k :: 0 <= k < |outs| ==> outs[k] == Completed(Pair(None, Some(ExceptionClass)))
    ensures Collect(outs) == Returned(ExceptionClass)
    decreases |outs|
  {
    if |outs| > 1 {
      assert forall k :: 0 <= k < |outs| - 1 ==> outs[1..][k] == outs[k + 1];
      AllRejected(outs[1..]);
    }
  }

  /** A single parser that accepts the file and succeeds on its first call
      decides the answer when its job completes first. */
  lemma FirstCompletedSuccessWins<T>(parsers: seq<Plugin.ParserClass>, remote: Remote, host: string, path: string,
                                     attempts: seq<seq<Result<T>>>, order: seq<nat>, v: T)
    requires AttemptsFor(attempts, |parsers|) && IsOrder(order, |parsers|)
    requires parsers != [] && (host, path) in remote
    requires Plugin.Matches(parsers[order[0]].desc.header, LineAt(remote[(host, path)], 0))
    requires attempts[order[0]][0] == Ok(v)
    ensures GetAsyncSpec(parsers, remote, host, path, attempts, order) == Value(Some(v))
  {
    Attempts.RetriedAt(attempts[order[0]], 0);
  }
}
