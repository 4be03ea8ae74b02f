/** `DataExtractor._get_async` of `simulation_visualizer/file/extractor.py`: every
    job is submitted to a thread pool, and results are consumed in completion
    order. A successful result fills the slot of its target; the call returns
    the slots as soon as all of them are filled, and a failure value once the
    jobs run out. The pool is modelled by running the jobs one after another in
    an arbitrary completion order `order` (a permutation of the job indices);
    every property below holds for every such order. */
module Dispatch {
  import opened Errors
  import opened Files
  import Plugin
  import opened Attempts
  import opened Jobs
  import Utils

  /** The message `ThreadPoolExecutor` raises for a pool of zero workers. */
  const MsgWorkers := "max_workers must be greater than 0"

  /** The message of the `CannotHandleException` returned on exhaustion. */
  const MsgUnable := "Data parsers were unable to handle files"

  /** How the completion loop ends: all slots filled, jobs exhausted (with the
      errors it logs), or an exception escaping `future.result()`. */
  datatype Collected<T> = Filled(slots: seq<T>) | Exhausted(errors: map<Target, set<Exc>>) | Raises(error: Exc)

  /** `indexer.index(t)`: the first position of `t`. */
  function Position(ts: seq<Target>, t: Target): (i: nat)
    requires t in ts
    ensures i < |ts| && ts[i] == t
    ensures forall k :: 0 <= k < i ==> ts[k] != t
  {
    if ts[0] == t then 0 else 1 + Position(ts[1..], t)
  }

  /** `not any([d is None for d in datas])` */
  predicate AllSome<T>(s: seq<Option<T>>) {
    forall i :: 0 <= i < |s| ==> s[i].Some?
  }

  /** The values of a list without `None`. */
  function Values<T>(s: seq<Option<T>>): (vs: seq<T>)
    requires AllSome(s)
    ensures |vs| == |s| && forall i :: 0 <= i < |s| ==> s[i] == Some(vs[i])
  {
    seq(|s|, i requires 0 <= i < |s| => s[i].value)
  }

  /** `errors[t].add(e)` on a `defaultdict(set)`. */
  function AddError(errors: map<Target, set<Exc>>, t: Target, e: Exc): (r: map<Target, set<Exc>>)
    ensures t in r && e in r[t]
    ensures forall u :: u in r <==> u in errors || u == t
    ensures forall u, x :: u in r && x in r[u] <==> (u in errors && x in errors[u]) || (u, x) == (t, e)
  {
    errors[t := (if t in errors then errors[t] else {}) + {e}]
  }

  /** One consumed future: the target it was submitted for and what it gave. */
  type Step<T> = (Target, JobOutcome<T>)

  predicate StepsIn<T>(indexer: seq<Target>, steps: seq<Step<T>>) {
    forall k :: 0 <= k < |steps| ==> steps[k].0 in indexer
  }

  /** The completion loop from slots `slots` and errors `errors` on. */
  function Run<T>(indexer: seq<Target>, steps: seq<Step<T>>, slots: seq<Option<T>>,
                  errors: map<Target, set<Exc>>): Collected<T>
    requires |indexer| <= |slots|
    requires StepsIn(indexer, steps)
    decreases |steps|
  {
    if steps == [] then Exhausted(errors)
    else
      var t := steps[0].0;
      assert StepsIn(indexer, steps[1..]) by {
        assert forall k :: 0 <= k < |steps| - 1 ==> steps[1..][k] == steps[k + 1];
      }
      match steps[0].1
      case Crashed(e) => Raises(e)
      case Data(v) =>
        var s := slots[Position(indexer, t) := Some(v)];
        if AllSome(s) then Filled(Values(s)) else Run(indexer, steps[1..], s, errors)
      case Failed(e) =>
        if e.CannotHandle? then Run(indexer, steps[1..], slots, errors)
        else Run(indexer, steps[1..], slots, AddError(errors, t, e))
  }

  /** `order` lists each of `n` job indices exactly once. */
  predicate IsOrder(order: seq<nat>, n: nat) {
    |order| == n
    && (forall i :: 0 <= i < |order| ==> order[i] < n)
    && (forall i, j :: 0 <= i < j < |order| ==> order[i] != order[j])
  }

  /** The attempt outcomes supplied for `n` jobs, three extraction calls each. */
  predicate AttemptsFor<T>(attempts: seq<seq<Result<T>>>, n: nat) {
    |attempts| == n && forall k :: 0 <= k < n ==> |attempts[k]| == MaxParseAttempts
  }

  /** What job `job` gives, its extraction calls producing `attempts`. */
  function Outcome<T>(job: Job, remote: Remote, attempts: seq<Result<T>>): JobOutcome<T>
    requires |attempts| == MaxParseAttempts
  {
    JobSpec(CanHandleResult(job.parser.desc.header, remote, job.target.0, job.target.1), attempts)
  }

  /** The futures in completion order. */
  function StepsOf<T>(jobs: seq<Job>, order: seq<nat>, remote: Remote, attempts: seq<seq<Result<T>>>): (steps: seq<Step<T>>)
    requires IsOrder(order, |jobs|) && AttemptsFor(attempts, |jobs|)
    ensures |steps| == |order|
    ensures forall k :: 0 <= k < |order| ==>
      steps[k] == (jobs[order[k]].target, Outcome(jobs[order[k]], remote, attempts[order[k]]))
  {
    seq(|order|, k requires 0 <= k < |order| =>
      (jobs[order[k]].target, Outcome(jobs[order[k]], remote, attempts[order[k]])))
  }

  /** The slots `datas = [None] * len(hosts)` start from. */
  function Empty<T>(n: nat): (s: seq<Option<T>>)
    ensures |s| == n && forall i :: 0 <= i < n ==> s[i].None?
  {
    seq(n, i => None)
  }

  /** What `_get_async` ends with for these inputs. */
  function GetAsyncSpec<T>(parsers: seq<Plugin.ParserClass>, hosts: seq<string>, paths: seq<string>,
                           remote: Remote, score: (string, string) -> int,
                           attempts: seq<seq<Result<T>>>, order: seq<nat>): (d: Collected<T>)
    requires AttemptsFor(attempts, |parsers| * |Utils.Zip(hosts, paths)|)
    requires IsOrder(order, |parsers| * |Utils.Zip(hosts, paths)|)
    ensures d.Raises? ==>
      (parsers == [] && d.error == ValueError(MsgWorkers)) || (parsers != [] && d.error.FileNotFound?)
  {
    if parsers == [] then Raises(ValueError(MsgWorkers))
    else
      var indexer := Utils.Zip(hosts, paths);
      var jobs := Jobs.Jobs(parsers, indexer, score);
      JobsFromInputs(parsers, indexer, score);
      var steps := StepsOf(jobs, order, remote, attempts);
      StepsOfIn(indexer, jobs, order, remote, attempts);
      RaisedFromCapability(indexer, steps, Empty(|hosts|), map[]);
      Run(indexer, steps, Empty(|hosts|), map[])
  }

  /** `_get_async(what, hosts, paths)`. Each parser's session id is either left
      alone or set to `sessionId`. */
  method GetAsync<T>(parsers: seq<Plugin.ParserClass>, sessionId: string, hosts: seq<string>, paths: seq<string>,
                     remote: Remote, score: (string, string) -> int,
                     attempts: seq<seq<Result<T>>>, order: seq<nat>)
    returns (d: Collected<T>)
    requires AttemptsFor(attempts, |parsers| * |Utils.Zip(hosts, paths)|)
    requires IsOrder(order, |parsers| * |Utils.Zip(hosts, paths)|)
    modifies parsers
    ensures d == GetAsyncSpec(parsers, hosts, paths, remote, score, attempts, order)
    ensures forall p :: p in parsers ==> p.sessionId == old(p.sessionId) || p.sessionId == Some(sessionId)
  {
    if parsers == [] {
      return Raises(ValueError(MsgWorkers));
    }
    var indexer := Utils.Zip(hosts, paths);
    var jobs := Jobs.Jobs(parsers, indexer, score);
    JobsFromInputs(parsers, indexer, score);
    d := Complete(parsers, indexer, jobs, sessionId, remote, attempts, order, |hosts|);
  }

  /** The completion loop of `_get_async` over the submitted `jobs`, the slots
      starting as `n` times `None`. */
  method Complete<T>(parsers: seq<Plugin.ParserClass>, indexer: seq<Target>, jobs: seq<Job>, sessionId: string,
                     remote: Remote, attempts: seq<seq<Result<T>>>, order: seq<nat>, n: nat)
    returns (d: Collected<T>)
    requires IsOrder(order, |jobs|) && AttemptsFor(attempts, |jobs|) && |indexer| <= n
    requires forall k :: 0 <= k < |jobs| ==> jobs[k].parser in parsers && jobs[k].target in indexer
    modifies parsers
    ensures d == Run(indexer, StepsOf(jobs, order, remote, attempts), Empty(n), map[])
    ensures forall p :: p in parsers ==> p.sessionId == old(p.sessionId) || p.sessionId == Some(sessionId)
  {
    ghost var steps := StepsOf(jobs, order, remote, attempts);
    StepsOfIn(indexer, jobs, order, remote, attempts);
    assert steps[0..] == steps;
    var datas: seq<Option<T>> := Empty(n);
    var errors: map<Target, set<Exc>> := map[];
    var i := 0;
    while i < |order|
      invariant i <= |order| && |datas| == n
      invariant StepsIn(indexer, steps[i..])
      invariant Run(indexer, steps[i..], datas, errors) == Run(indexer, steps, Empty(n), map[])
      invariant forall p :: p in parsers ==> p.sessionId == old(p.sessionId) || p.sessionId == Some(sessionId)
    {
      var done;
      done, d, datas, errors := Turn(indexer, jobs, sessionId, remote, attempts, order, steps, i, datas, errors);
      if done {
        return;
      }
      i := i + 1;
    }
    return Exhausted(errors);
  }

  /** One turn of the completion loop: the future in position `i` of the
      completion order is consumed, and either the call ends with `d` or the loop
      goes on from the new slots and errors. */
  method Turn<T>(indexer: seq<Target>, jobs: seq<Job>, sessionId: string, remote: Remote,
                 attempts: seq<seq<Result<T>>>, order: seq<nat>, ghost steps: seq<Step<T>>, i: nat,
                 datas: seq<Option<T>>, errors: map<Target, set<Exc>>)
    returns (done: bool, d: Collected<T>, datas': seq<Option<T>>, errors': map<Target, set<Exc>>)
    requires IsOrder(order, |jobs|) && AttemptsFor(attempts, |jobs|) && i < |order|
    requires steps == StepsOf(jobs, order, remote, attempts)
    requires |indexer| <= |datas| && StepsIn(indexer, steps[i..])
    modifies jobs[order[i]].parser
    ensures done ==> d == Run(indexer, steps[i..], datas, errors)
    ensures !done ==> |datas'| == |datas| && StepsIn(indexer, steps[i + 1..])
    ensures !done ==> Run(indexer, steps[i + 1..], datas', errors') == Run(indexer, steps[i..], datas, errors)
    ensures jobs[order[i]].parser.sessionId == old(jobs[order[i]].parser.sessionId)
      || jobs[order[i]].parser.sessionId == Some(sessionId)
  {
    var job := jobs[order[i]];
    var o := RunJob(job, sessionId, remote, attempts[order[i]]);
    assert steps[i] == (job.target, o);
    datas', errors' := datas, errors;
    match o {
      case Crashed(e) =>
        RunCrashed(indexer, steps, i, datas, errors, job.target, e);
        return true, Raises(e), datas', errors';
      case Data(v) =>
        RunData(indexer, steps, i, datas, errors, job.target, v);
        datas' := datas[Position(indexer, job.target) := Some(v)];
        if AllSome(datas') {
          return true, Filled(Values(datas')), datas', errors';
        }
      case Failed(e) =>
        RunFailed(indexer, steps, i, datas, errors, job.target, e);
        if !e.CannotHandle? {
          errors' := AddError(errors, job.target, e);
        }
    }
    done, d := false, Exhausted(errors');
  }

  /** One submitted job: `_get_one` for its parser and target, with only its
      outcome and its effect on the parser's session id kept. */
  method RunJob<T>(job: Job, sessionId: string, remote: Remote, attempts: seq<Result<T>>)
    returns (o: JobOutcome<T>)
    requires |attempts| == MaxParseAttempts
    modifies job.parser
    ensures o == Outcome(job, remote, attempts)
    ensures job.parser.sessionId == old(job.parser.sessionId) || job.parser.sessionId == Some(sessionId)
  {
    var calls;
    o, calls := GetOne(job.parser, sessionId, remote, job.target.0, job.target.1, attempts);
  }

  lemma StepsOfIn<T>(indexer: seq<Target>, jobs: seq<Job>, order: seq<nat>, remote: Remote, attempts: seq<seq<Result<T>>>)
    requires IsOrder(order, |jobs|) && AttemptsFor(attempts, |jobs|)
    requires forall k :: 0 <= k < |jobs| ==> jobs[k].target in indexer
    ensures StepsIn(indexer, StepsOf(jobs, order, remote, attempts))
  {
  }

  /** An exception raised out of the completion loop is one a capability check
      raised: opening a file that is not there. */
  lemma {:induction false} RaisedFromCapability<T>(indexer: seq<Target>, steps: seq<Step<T>>,
                                                   slots: seq<Option<T>>, errors: map<Target, set<Exc>>)
    requires |indexer| <= |slots| && StepsIn(indexer, steps)
    requires forall k :: 0 <= k < |steps| ==> steps[k].1.Crashed? ==> steps[k].1.error.FileNotFound?
    ensures Run(indexer, steps, slots, errors).Raises? ==> Run(indexer, steps, slots, errors).error.FileNotFound?
    decreases |steps|
  {
    if steps != [] {
      RunStep(indexer, steps, 0, slots, errors);
      assert steps[0..] == steps && steps[1..] == steps[0 + 1..];
      assert forall k :: 0 <= k < |steps| - 1 ==> steps[1..][k] == steps[k + 1];
      match steps[0].1 {
        case Crashed(e) =>
        case Data(v) =>
          var s := slots[Position(indexer, steps[0].0) := Some(v)];
          if !AllSome(s) {
            RaisedFromCapability(indexer, steps[1..], s, errors);
          }
        case Failed(e) =>
          RaisedFromCapability(indexer, steps[1..], slots, if e.CannotHandle? then errors else AddError(errors, steps[0].0, e));
      }
    }
  }

  /** One turn of the completion loop, at position `i` of the completion order. */
  lemma RunStep<T>(indexer: seq<Target>, steps: seq<Step<T>>, i: nat, slots: seq<Option<T>>,
                   errors: map<Target, set<Exc>>)
    requires |indexer| <= |slots| && i < |steps| && StepsIn(indexer, steps[i..])
    ensures StepsIn(indexer, steps[i + 1..])
    ensures steps[i].1.Crashed? ==> Run(indexer, steps[i..], slots, errors) == Raises(steps[i].1.error)
    ensures steps[i].1.Data? ==>
      var s := slots[Position(indexer, steps[i].0) := Some(steps[i].1.value)];
      Run(indexer, steps[i..], slots, errors) ==
        if AllSome(s) then Filled(Values(s)) else Run(indexer, steps[i + 1..], s, errors)
    ensures steps[i].1.Failed? && steps[i].1.error.CannotHandle? ==>
      Run(indexer, steps[i..], slots, errors) == Run(indexer, steps[i + 1..], slots, errors)
    ensures steps[i].1.Failed? && !steps[i].1.error.CannotHandle? ==>
      Run(indexer, steps[i..], slots, errors) == Run(indexer, steps[i + 1..], slots, AddError(errors, steps[i].0, steps[i].1.error))
  {
    assert steps[i..][0] == steps[i];
    assert steps[i..][1..] == steps[i + 1..];
  }

  /** A turn whose job raised. */
  lemma RunCrashed<T>(indexer: seq<Target>, steps: seq<Step<T>>, i: nat, slots: seq<Option<T>>,
                      errors: map<Target, set<Exc>>, t: Target, e: Exc)
    requires |indexer| <= |slots| && i < |steps| && StepsIn(indexer, steps[i..]) && steps[i] == (t, Crashed(e))
    ensures Run(indexer, steps[i..], slots, errors) == Raises(e)
  {
    RunStep(indexer, steps, i, slots, errors);
  }

  /** A turn whose job gave data for target `t`. */
  lemma RunData<T>(indexer: seq<Target>, steps: seq<Step<T>>, i: nat, slots: seq<Option<T>>,
                   errors: map<Target, set<Exc>>, t: Target, v: T)
    requires |indexer| <= |slots| && i < |steps| && StepsIn(indexer, steps[i..]) && steps[i] == (t, Data(v))
    ensures t in indexer && StepsIn(indexer, steps[i + 1..])
    ensures var s := slots[Position(indexer, t) := Some(v)];
      Run(indexer, steps[i..], slots, errors) ==
        if AllSome(s) then Filled(Values(s)) else Run(indexer, steps[i + 1..], s, errors)
  {
    assert steps[i..][0] == steps[i];
    RunStep(indexer, steps, i, slots, errors);
  }

  /** A turn whose job failed with `e`. */
  lemma RunFailed<T>(indexer: seq<Target>, steps: seq<Step<T>>, i: nat, slots: seq<Option<T>>,
                     errors: map<Target, set<Exc>>, t: Target, e: Exc)
    requires |indexer| <= |slots| && i < |steps| && StepsIn(indexer, steps[i..]) && steps[i] == (t, Failed(e))
    ensures StepsIn(indexer, steps[i + 1..])
    ensures Run(indexer, steps[i..], slots, errors) ==
      Run(indexer, steps[i + 1..], slots, if e.CannotHandle? then errors else AddError(errors, t, e))
  {
    RunStep(indexer, steps, i, slots, errors);
  }

  // ---------------------------------------------------------------------------
  // Properties of the completion loop

  /** Slot `j` is filled with `v` by some consumed future. */
  ghost predicate FilledBy<T>(indexer: seq<Target>, steps: seq<Step<T>>, j: nat, v: T) {
    exists k :: 0 <= k < |steps| && steps[k].0 in indexer && Position(indexer, steps[k].0) == j && steps[k].1 == Data(v)
  }

  lemma FilledByTail<T>(indexer: seq<Target>, steps: seq<Step<T>>, j: nat, v: T)
    requires steps != [] && FilledBy(indexer, steps[1..], j, v)
    ensures FilledBy(indexer, steps, j, v)
  {
    var k :| 0 <= k < |steps| - 1 && steps[1..][k].0 in indexer && Position(indexer, steps[1..][k].0) == j
      && steps[1..][k].1 == Data(v);
    assert steps[k + 1] == steps[1..][k];
  }

  /** Every value returned comes from a successful job for that slot's target (or
      was already in the slot). */
  lemma {:induction false} FilledFromData<T>(indexer: seq<Target>, steps: seq<Step<T>>, slots: seq<Option<T>>,
                                             errors: map<Target, set<Exc>>)
    requires |indexer| <= |slots| && StepsIn(indexer, steps)
    ensures var d := Run(indexer, steps, slots, errors);
      d.Filled? ==> (|d.slots| == |slots| &&
        forall j :: 0 <= j < |slots| ==> slots[j] == Some(d.slots[j]) || FilledBy(indexer, steps, j, d.slots[j]))
    decreases |steps|
  {
    var d := Run(indexer, steps, slots, errors);
    if steps != [] && d.Filled? {
      var t := steps[0].0;
      assert StepsIn(indexer, steps[1..]) by {
        assert forall k :: 0 <= k < |steps| - 1 ==> steps[1..][k] == steps[k + 1];
      }
      match steps[0].1
      case Data(v) =>
        var p := Position(indexer, t);
        var s := slots[p := Some(v)];
        assert FilledBy(indexer, steps, p, v);
        if !AllSome(s) {
          FilledFromData(indexer, steps[1..], s, errors);
          forall j | 0 <= j < |slots|
            ensures slots[j] == Some(d.slots[j]) || FilledBy(indexer, steps, j, d.slots[j])
          {
            if j != p && s[j] != Some(d.slots[j]) {
              FilledByTail(indexer, steps, j, d.slots[j]);
            } else if j == p && s[j] != Some(d.slots[j]) {
              FilledByTail(indexer, steps, j, d.slots[j]);
            }
          }
        }
      case Failed(e) =>
        var errs := if e.CannotHandle? then errors else AddError(errors, t, e);
        FilledFromData(indexer, steps[1..], slots, errs);
        forall j | 0 <= j < |slots| && slots[j] != Some(d.slots[j])
          ensures FilledBy(indexer, steps, j, d.slots[j])
        {
          FilledByTail(indexer, steps, j, d.slots[j]);
        }
    }
  }

  /** A slot no future maps to stays empty, so the slots are never returned. */
  lemma {:induction false} UnreachedSlot<T>(indexer: seq<Target>, steps: seq<Step<T>>, slots: seq<Option<T>>,
                                            errors: map<Target, set<Exc>>, j: nat)
    requires |indexer| <= |slots| && StepsIn(indexer, steps)
    requires j < |slots| && slots[j].None?
    requires forall k :: 0 <= k < |steps| ==> Position(indexer, steps[k].0) != j
    ensures !Run(indexer, steps, slots, errors).Filled?
    decreases |steps|
  {
    if steps != [] {
      var t := steps[0].0;
      assert forall k :: 0 <= k < |steps| - 1 ==> steps[1..][k] == steps[k + 1];
      match steps[0].1
      case Data(v) =>
        var s := slots[Position(indexer, t) := Some(v)];
        assert Position(indexer, steps[0].0) != j;
        assert s[j].None?;
        UnreachedSlot(indexer, steps[1..], s, errors, j);
      case Failed(e) =>
        var errs := if e.CannotHandle? then errors else AddError(errors, t, e);
        UnreachedSlot(indexer, steps[1..], slots, errs, j);
      case Crashed(e) =>
    }
  }

  /** Conversely, when no job raises and every empty slot has a successful job,
      the slots are returned. */
  lemma {:induction false} AllTargetsServed<T>(indexer: seq<Target>, steps: seq<Step<T>>, slots: seq<Option<T>>,
                                               errors: map<Target, set<Exc>>)
    requires |indexer| <= |slots| && StepsIn(indexer, steps)
    requires !AllSome(slots)
    requires forall k :: 0 <= k < |steps| ==> !steps[k].1.Crashed?
    requires forall j :: 0 <= j < |slots| && slots[j].None? ==>
      exists k :: 0 <= k < |steps| && Position(indexer, steps[k].0) == j && steps[k].1.Data?
    ensures Run(indexer, steps, slots, errors).Filled?
    decreases |steps|
  {
    var j0 :| 0 <= j0 < |slots| && slots[j0].None?;
    assert steps != [];
    var t := steps[0].0;
    assert forall k :: 0 <= k < |steps| - 1 ==> steps[1..][k] == steps[k + 1];
    var s := if steps[0].1.Data? then slots[Position(indexer, t) := Some(steps[0].1.value)] else slots;
    if !(steps[0].1.Data? && AllSome(s)) {
      forall j | 0 <= j < |s| && s[j].None?
        ensures exists k :: 0 <= k < |steps| - 1 && Position(indexer, steps[1..][k].0) == j && steps[1..][k].1.Data?
      {
        var k :| 0 <= k < |steps| && Position(indexer, steps[k].0) == j && steps[k].1.Data?;
        assert k != 0;
        assert steps[1..][k - 1] == steps[k];
      }
      var errs := if steps[0].1.Data? || steps[0].1.error.CannotHandle? then errors
                  else AddError(errors, t, steps[0].1.error);
      AllTargetsServed(indexer, steps[1..], s, errs);
    }
  }

  /** Every logged error comes from a failed job for that target, and
      `CannotHandleException` is never logged. */
  lemma {:induction false} LoggedErrors<T>(indexer: seq<Target>, steps: seq<Step<T>>, slots: seq<Option<T>>,
                                           errors: map<Target, set<Exc>>)
    requires |indexer| <= |slots| && StepsIn(indexer, steps)
    ensures var d := Run(indexer, steps, slots, errors);
      d.Exhausted? ==> forall t, e :: t in d.errors && e in d.errors[t] ==>
        (t in errors && e in errors[t]) ||
        (!e.CannotHandle? && exists k :: 0 <= k < |steps| && steps[k] == (t, Failed(e)))
    decreases |steps|
  {
    var d := Run(indexer, steps, slots, errors);
    if steps != [] && d.Exhausted? {
      var t := steps[0].0;
      assert forall k :: 0 <= k < |steps| - 1 ==> steps[1..][k] == steps[k + 1];
      match steps[0].1
      case Data(v) =>
        var s := slots[Position(indexer, t) := Some(v)];
        LoggedErrors(indexer, steps[1..], s, errors);
      case Failed(e) =>
        var errs := if e.CannotHandle? then errors else AddError(errors, t, e);
        LoggedErrors(indexer, steps[1..], slots, errs);
        forall u, x | u in d.errors && x in d.errors[u] && !(u in errors && x in errors[u])
          ensures !x.CannotHandle? && exists k :: 0 <= k < |steps| && steps[k] == (u, Failed(x))
        {
          if !(u in errs && x in errs[u]) {
            var k :| 0 <= k < |steps| - 1 && steps[1..][k] == (u, Failed(x));
            assert steps[k + 1] == (u, Failed(x));
          } else {
            assert (u, x) == (t, e) && steps[0] == (u, Failed(x));
          }
        }
    }
  }

  /** The loop returns as soon as the answer is known: once a prefix of the
      completion order fills every slot or raises, later completions change
      nothing. */
  lemma {:induction false} StopsEarly<T>(indexer: seq<Target>, steps: seq<Step<T>>, more: seq<Step<T>>,
                                         slots: seq<Option<T>>, errors: map<Target, set<Exc>>)
    requires |indexer| <= |slots| && StepsIn(indexer, steps) && StepsIn(indexer, more)
    requires !Run(indexer, steps, slots, errors).Exhausted?
    ensures StepsIn(indexer, steps + more)
    ensures Run(indexer, steps + more, slots, errors) == Run(indexer, steps, slots, errors)
    decreases |steps|
  {
    var all := steps + more;
    assert forall k :: 0 <= k < |all| ==> all[k] == if k < |steps| then steps[k] else more[k - |steps|];
    assert steps != [];
    assert all[0] == steps[0];
    assert all[1..] == steps[1..] + more;
    assert forall k :: 0 <= k < |steps| - 1 ==> steps[1..][k] == steps[k + 1];
    var t := steps[0].0;
    match steps[0].1
    case Data(v) =>
      var s := slots[Position(indexer, t) := Some(v)];
      if !AllSome(s) {
        StopsEarly(indexer, steps[1..], more, s, errors);
      }
    case Failed(e) =>
      var errs := if e.CannotHandle? then errors else AddError(errors, t, e);
      StopsEarly(indexer, steps[1..], more, slots, errs);
    case Crashed(e) =>
  }

  /** A later success for a filled slot overwrites the earlier one. */
  lemma LaterSuccessOverwrites<T>(t: Target, u: Target, a: T, b: T, c: T)
    requires t != u
    ensures Run([t, u], [(t, Data(a)), (t, Data(b)), (u, Data(c))], Empty(2), map[]) == Filled([b, c])
  {
    var steps: seq<Step<T>> := [(t, Data(a)), (t, Data(b)), (u, Data(c))];
    assert Position([t, u], t) == 0 && Position([t, u], u) == 1;
    var s0: seq<Option<T>> := Empty(2);
    assert s0 == [None, None];
    assert steps[1..] == [(t, Data(b)), (u, Data(c))];
    assert steps[1..][1..] == [(u, Data(c))];
    var s1 := s0[0 := Some(a)];
    assert s1 == [Some(a), None] && s1[1].None?;
    var s2 := s1[0 := Some(b)];
    assert s2 == [Some(b), None] && s2[1].None?;
    var s3 := s2[1 := Some(c)];
    assert s3 == [Some(b), Some(c)] && AllSome(s3);
    assert Run([t, u], steps, s0, map[]) == Run([t, u], steps[1..], s1, map[]);
    assert Run([t, u], steps[1..], s1, map[]) == Run([t, u], steps[1..][1..], s2, map[]);
    assert Run([t, u], steps[1..][1..], s2, map[]) == Filled(Values(s3));
    assert Values(s3) == [b, c];
  }

  // ---------------------------------------------------------------------------
  // Consequences for `_get_async` itself

  /** A target listed twice maps every future to its first position, so the second
      slot never fills and the call never returns the slots. */
  lemma DuplicateTargetNeverCompletes<T>(parsers: seq<Plugin.ParserClass>, hosts: seq<string>, paths: seq<string>,
                                         remote: Remote, score: (string, string) -> int,
                                         attempts: seq<seq<Result<T>>>, order: seq<nat>, j1: nat, j2: nat)
    requires AttemptsFor(attempts, |parsers| * |Utils.Zip(hosts, paths)|)
    requires IsOrder(order, |parsers| * |Utils.Zip(hosts, paths)|)
    requires j1 < j2 < |hosts| && j2 < |paths|
    requires hosts[j1] == hosts[j2] && paths[j1] == paths[j2]
    ensures !GetAsyncSpec(parsers, hosts, paths, remote, score, attempts, order).Filled?
  {
    if parsers != [] {
      var indexer := Utils.Zip(hosts, paths);
      var jobs := Jobs.Jobs(parsers, indexer, score);
      JobsFromInputs(parsers, indexer, score);
      var steps := StepsOf(jobs, order, remote, attempts);
      assert indexer[j1] == indexer[j2];
      forall k | 0 <= k < |steps|
        ensures Position(indexer, steps[k].0) != j2
      {
        var t := steps[k].0;
        if t == indexer[j2] {
          assert indexer[j1] == t;
        }
      }
      UnreachedSlot(indexer, steps, Empty(|hosts|), map[], j2);
    }
  }

  /** With fewer paths than hosts, `zip` drops the trailing hosts, their slots never
      fill, and the call never returns the slots. */
  lemma MoreHostsThanPathsNeverComplete<T>(parsers: seq<Plugin.ParserClass>, hosts: seq<string>, paths: seq<string>,
                                           remote: Remote, score: (string, string) -> int,
                                           attempts: seq<seq<Result<T>>>, order: seq<nat>)
    requires AttemptsFor(attempts, |parsers| * |Utils.Zip(hosts, paths)|)
    requires IsOrder(order, |parsers| * |Utils.Zip(hosts, paths)|)
    requires |paths| < |hosts|
    ensures !GetAsyncSpec(parsers, hosts, paths, remote, score, attempts, order).Filled?
  {
    if parsers != [] {
      var indexer := Utils.Zip(hosts, paths);
      var jobs := Jobs.Jobs(parsers, indexer, score);
      JobsFromInputs(parsers, indexer, score);
      var steps := StepsOf(jobs, order, remote, attempts);
      UnreachedSlot(indexer, steps, Empty(|hosts|), map[], |paths|);
    }
  }

  /** Some job for target `t` succeeded with `v`. */
  ghost predicate FromJob<T>(jobs: seq<Job>, order: seq<nat>, remote: Remote, attempts: seq<seq<Result<T>>>,
                             t: Target, v: T) {
    exists k :: 0 <= k < |order| && order[k] < |jobs| && order[k] < |attempts| &&
      |attempts[order[k]]| == MaxParseAttempts &&
      jobs[order[k]].target == t && Outcome(jobs[order[k]], remote, attempts[order[k]]) == Data(v)
  }

  lemma SlotFromJob<T>(indexer: seq<Target>, jobs: seq<Job>, order: seq<nat>, remote: Remote,
                       attempts: seq<seq<Result<T>>>, j: nat, v: T)
    requires IsOrder(order, |jobs|) && AttemptsFor(attempts, |jobs|)
    requires StepsIn(indexer, StepsOf(jobs, order, remote, attempts))
    requires FilledBy(indexer, StepsOf(jobs, order, remote, attempts), j, v)
    ensures j < |indexer| && FromJob(jobs, order, remote, attempts, indexer[j], v)
  {
    var steps := StepsOf(jobs, order, remote, attempts);
    var k :| 0 <= k < |steps| && steps[k].0 in indexer && Position(indexer, steps[k].0) == j
      && steps[k].1 == Data(v);
    assert indexer[j] == steps[k].0 == jobs[order[k]].target;
  }

  /** The values returned, one per host in host order, each come from a successful
      job on that slot's (host, path) target. */
  lemma ReturnedValuesFromJobs<T>(parsers: seq<Plugin.ParserClass>, hosts: seq<string>, paths: seq<string>,
                                  remote: Remote, score: (string, string) -> int,
                                  attempts: seq<seq<Result<T>>>, order: seq<nat>)
    requires AttemptsFor(attempts, |parsers| * |Utils.Zip(hosts, paths)|)
    requires IsOrder(order, |parsers| * |Utils.Zip(hosts, paths)|)
    ensures var d := GetAsyncSpec(parsers, hosts, paths, remote, score, attempts, order);
      d.Filled? ==> (|d.slots| == |hosts| <= |paths| && forall j :: 0 <= j < |hosts| ==>
        FromJob(Jobs.Jobs(parsers, Utils.Zip(hosts, paths), score), order, remote, attempts, (hosts[j], paths[j]), d.slots[j]))
  {
    var d := GetAsyncSpec(parsers, hosts, paths, remote, score, attempts, order);
    if |paths| < |hosts| {
      MoreHostsThanPathsNeverComplete(parsers, hosts, paths, remote, score, attempts, order);
    }
    if parsers != [] && d.Filled? {
      var indexer := Utils.Zip(hosts, paths);
      var jobs := Jobs.Jobs(parsers, indexer, score);
      JobsFromInputs(parsers, indexer, score);
      var steps := StepsOf(jobs, order, remote, attempts);
      StepsOfIn(indexer, jobs, order, remote, attempts);
      assert d == Run(indexer, steps, Empty(|hosts|), map[]);
      FilledFromData(indexer, steps, Empty(|hosts|), map[]);
      forall j | 0 <= j < |hosts|
        ensures FromJob(jobs, order, remote, attempts, (hosts[j], paths[j]), d.slots[j])
      {
        SlotFromJob(indexer, jobs, order, remote, attempts, j, d.slots[j]);
      }
    }
  }
}
