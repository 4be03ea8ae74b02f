/** `LammpsMetaDParser` of `simulation_visualizer/file/parsers/lmp_metad_run.py`:
    finding the thermo output of the first MD run in a LAMMPS log.

    `_find_iter` advances the file twice. It first looks for a `run N` command,
    then, after it, for the "Per MPI rank memory allocation" line that precedes
    the thermo table; the line after that is the table's column header. Each
    search gives up after a bounded number of lines. */
module LammpsLog {
  import opened Text
  import opened Errors
  import opened Patterns
  import opened Files
  import Plugin

  const MsgRun := "Could not find start of MD run"
  const MsgThermo := "Couldn't find start of thermo output"
  const MemoryMarker := "Per MPI rank memory allocation"

  /** The last relative index at which each search still tests a line: the
      `i > 500` and `i > 100` checks come after the match test. */
  const RunLimit := 500
  const ThermoLimit := 100

  /** The line the second search looks for. */
  predicate MemoryLine(line: string) {
    Contains(line, MemoryMarker)
  }

  /** One `for i, line in enumerate(f)` search, resumed at line index `p` with
      relative index `i`: the index of the line that breaks the loop, `atLimit`
      once a miss has relative index above `limit`, `atEnd` when the file ends. */
  function Scan(lines: seq<string>, p: nat, i: nat, hit: string -> bool, limit: nat, atLimit: Exc, atEnd: Exc): (r: Result<nat>)
    ensures r.Ok? ==> p <= r.value < |lines|
    ensures r.Err? ==> r.error == atLimit || r.error == atEnd
    decreases |lines| - p
  {
    if p >= |lines| then Err(atEnd)
    else if hit(lines[p]) then Ok(p)
    else if i > limit then Err(atLimit)
    else Scan(lines, p + 1, i + 1, hit, limit, atLimit, atEnd)
  }

  /** `lines[x]` is the first line from index `p` on that the search hits. */
  predicate FirstHit(lines: seq<string>, hit: string -> bool, p: nat, x: nat) {
    && p <= x < |lines|
    && hit(lines[x])
    && forall q :: p <= q < x ==> !hit(lines[q])
  }

  /** The search, described without the loop: the first hit if it lies within the
      window of `limit + 2` lines that the search examines, otherwise `atLimit` if
      the file reaches past the window and `atEnd` if it does not. */
  lemma {:induction false} ScanFinds(lines: seq<string>, p: nat, i: nat, hit: string -> bool, limit: nat, atLimit: Exc, atEnd: Exc)
    requires i <= p && i <= limit + 1
    ensures var r := Scan(lines, p, i, hit, limit, atLimit, atEnd);
      && (r.Ok? ==> FirstHit(lines, hit, p, r.value) && r.value <= p - i + limit + 1)
      && (forall x: nat :: FirstHit(lines, hit, p, x) && x <= p - i + limit + 1 ==> r == Ok(x))
      && (r.Err? ==> r.error == if |lines| > p - i + limit + 1 then atLimit else atEnd)
    decreases |lines| - p
  {
    if p >= |lines| {
    } else if hit(lines[p]) {
      assert FirstHit(lines, hit, p, p);
    } else if i <= limit {
      ScanFinds(lines, p + 1, i + 1, hit, limit, atLimit, atEnd);
      var r := Scan(lines, p + 1, i + 1, hit, limit, atLimit, atEnd);
      assert Scan(lines, p, i, hit, limit, atLimit, atEnd) == r;
      if r.Ok? {
        assert FirstHit(lines, hit, p, r.value);
      }
      forall x: nat | FirstHit(lines, hit, p, x) && x <= p - i + limit + 1
        ensures FirstHit(lines, hit, p + 1, x)
      {
      }
    }
  }

  /** The search stops at the first hit when that hit lies within its window. */
  lemma ScanHits(lines: seq<string>, p: nat, i: nat, hit: string -> bool, limit: nat, atLimit: Exc, atEnd: Exc, x: nat)
    requires i <= p && i <= limit + 1
    requires FirstHit(lines, hit, p, x) && x <= p - i + limit + 1
    ensures Scan(lines, p, i, hit, limit, atLimit, atEnd) == Ok(x)
  {
    ScanFinds(lines, p, i, hit, limit, atLimit, atEnd);
  }

  /** Where `_find_iter` leaves a file read from line `start`: at the line after
      the memory-allocation line, or the exception it raises. */
  function FindIterSpec(lines: seq<string>, start: nat): (r: Result<nat>)
    ensures r.Ok? ==> start < r.value <= |lines|
  {
    match Scan(lines, start, 0, RunLine, RunLimit, TypeError(MsgRun), TypeError(MsgRun))
    case Err(e) => Err(e)
    case Ok(run) =>
      match Scan(lines, run + 1, 0, MemoryLine, ThermoLimit, TypeError(MsgThermo), ValueError(MsgThermo))
      case Err(e) => Err(e)
      case Ok(mem) => Ok(mem + 1)
  }

  /** `LammpsMetaDParser._find_iter(f)`: two searches over the shared iterator;
      the result is the exception raised, if any. */
  method FindIter(f: FileHandle) returns (raised: Option<Exc>)
    requires f.Valid()
    modifies f
    ensures f.Valid()
    ensures var s := FindIterSpec(f.lines, old(f.pos));
      && (s.Ok? ==> raised.None? && f.pos == s.value)
      && (s.Err? ==> raised == Some(s.error))
  {
    var run := Search(f, RunLine, RunLimit, TypeError(MsgRun), TypeError(MsgRun));
    if run.Err? {
      return Some(run.error);
    }
    var mem := Search(f, MemoryLine, ThermoLimit, TypeError(MsgThermo), ValueError(MsgThermo));
    if mem.Err? {
      return Some(mem.error);
    }
    return None;
  }

  /** One of the two `for i, line in enumerate(f)` loops of `_find_iter`, from the
      handle's current line: on a hit the handle is left just after that line. */
  method Search(f: FileHandle, hit: string -> bool, limit: nat, atLimit: Exc, atEnd: Exc) returns (r: Result<nat>)
    requires f.Valid()
    modifies f
    ensures f.Valid()
    ensures r == Scan(f.lines, old(f.pos), 0, hit, limit, atLimit, atEnd)
    ensures r.Ok? ==> f.pos == r.value + 1
  {
    ghost var start := f.pos;
    var i := 0;
    while true
      invariant f.Valid() && f.pos == start + i && i <= limit + 1
      invariant Scan(f.lines, start, 0, hit, limit, atLimit, atEnd) == Scan(f.lines, f.pos, i, hit, limit, atLimit, atEnd)
      decreases |f.lines| - f.pos
    {
      var more, line := f.Next();
      if !more {
        return Err(atEnd);
      }
      if hit(line) {
        return Ok(f.pos - 1);
      }
      if i > limit {
        return Err(atLimit);
      }
      i := i + 1;
    }
  }

  /** What `extract_header` returns for a log with these lines. */
  function HeaderSpec(lines: seq<string>): Result<Plugin.Header> {
    match FindIterSpec(lines, 0)
    case Err(e) => Err(e)
    case Ok(p) => Ok(Plugin.Header(Split(LineAt(lines, p)), Plugin.SuggestAxis()))
  }

  /** `LammpsMetaDParser.extract_header(path, host)`: opens the log, moves past the
      memory-allocation line and splits the next line into column names. */
  method ExtractHeader(remote: Remote, host: string, path: string) returns (r: Result<Plugin.Header>)
    ensures (host, path) !in remote ==> r == Err(FileNotFound(path))
    ensures (host, path) in remote ==> r == HeaderSpec(remote[(host, path)])
  {
    var open := Plugin.FileOpener(remote, host, path, None);
    if open.Err? {
      return Err(open.error);
    }
    var f := open.value;
    var raised := FindIter(f);
    if raised.Some? {
      return Err(raised.value);
    }
    var line := f.ReadLine();
    return Ok(Plugin.Header(Split(line), Plugin.SuggestAxis()));
  }

  // ---------------------------------------------------------------------------
  // Properties

  /** `_find_iter` succeeds exactly when the first `run N` line lies within the
      first 502 lines and the first memory-allocation line after it lies within
      the next 102 lines; it then stops just after that memory line. */
  lemma FindIterSucceeds(lines: seq<string>, p: nat)
    ensures FindIterSpec(lines, 0) == Ok(p)
        <==> exists run: nat :: && FirstHit(lines, RunLine, 0, run) && run <= RunLimit + 1
                           && p >= 1 && FirstHit(lines, MemoryLine, run + 1, p - 1)
                           && p - 1 <= run + 1 + ThermoLimit + 1
  {
    if FindIterSpec(lines, 0) == Ok(p) {
      FindIterFound(lines, p);
    }
    forall run: nat | && FirstHit(lines, RunLine, 0, run) && run <= RunLimit + 1
                      && p >= 1 && FirstHit(lines, MemoryLine, run + 1, p - 1)
                      && p - 1 <= run + 1 + ThermoLimit + 1
      ensures FindIterSpec(lines, 0) == Ok(p)
    {
      FindIterFrom(lines, run, p - 1);
    }
  }

  /** A success of `_find_iter` comes from a run line and a memory line within
      their windows. */
  lemma FindIterFound(lines: seq<string>, p: nat)
    requires FindIterSpec(lines, 0) == Ok(p)
    ensures exists run: nat :: && FirstHit(lines, RunLine, 0, run) && run <= RunLimit + 1
                           && p >= 1 && FirstHit(lines, MemoryLine, run + 1, p - 1)
                           && p - 1 <= run + 1 + ThermoLimit + 1
  {
    var r := Scan(lines, 0, 0, RunLine, RunLimit, TypeError(MsgRun), TypeError(MsgRun));
    assert r.Ok?;
    ScanFinds(lines, 0, 0, RunLine, RunLimit, TypeError(MsgRun), TypeError(MsgRun));
    var run := r.value;
    var m := Scan(lines, run + 1, 0, MemoryLine, ThermoLimit, TypeError(MsgThermo), ValueError(MsgThermo));
    assert m == Ok(p - 1);
    ScanFinds(lines, run + 1, 0, MemoryLine, ThermoLimit, TypeError(MsgThermo), ValueError(MsgThermo));
    assert FirstHit(lines, RunLine, 0, run) && FirstHit(lines, MemoryLine, run + 1, p - 1);
  }

  /** A run line and a memory line within their windows make `_find_iter` stop
      just after the memory line. */
  lemma FindIterFrom(lines: seq<string>, run: nat, mem: nat)
    requires FirstHit(lines, RunLine, 0, run) && run <= RunLimit + 1
    requires FirstHit(lines, MemoryLine, run + 1, mem) && mem <= run + 1 + ThermoLimit + 1
    ensures FindIterSpec(lines, 0) == Ok(mem + 1)
  {
    ScanHits(lines, 0, 0, RunLine, RunLimit, TypeError(MsgRun), TypeError(MsgRun), run);
    ScanHits(lines, run + 1, 0, MemoryLine, ThermoLimit, TypeError(MsgThermo), ValueError(MsgThermo), mem);
  }

  /** Without a `run N` line among the first 502 lines the result is the
      `TypeError` about the MD run, whether the file ends early or not. */
  lemma NoRunLine(lines: seq<string>)
    requires forall q :: 0 <= q < |lines| && q <= RunLimit + 1 ==> !RunLine(lines[q])
    ensures FindIterSpec(lines, 0) == Err(TypeError(MsgRun))
  {
    ScanFinds(lines, 0, 0, RunLine, RunLimit, TypeError(MsgRun), TypeError(MsgRun));
  }

  /** The run line may be line 501 (the 502nd): the match is tested before the
      bound. */
  lemma RunLineAt501(lines: seq<string>)
    requires |lines| > 501 && RunLine(lines[501])
    requires forall q :: 0 <= q < 501 ==> !RunLine(lines[q])
    ensures Scan(lines, 0, 0, RunLine, RunLimit, TypeError(MsgRun), TypeError(MsgRun)) == Ok(501)
  {
    ScanFinds(lines, 0, 0, RunLine, RunLimit, TypeError(MsgRun), TypeError(MsgRun));
    assert FirstHit(lines, RunLine, 0, 501);
  }

  /** After the run line, a missing memory-allocation line is a `TypeError` when the
      file goes on past the 102-line window and a `ValueError` when it ends inside
      it: two different exception types for one condition. */
  lemma NoMemoryLine(lines: seq<string>, run: nat)
    requires FirstHit(lines, RunLine, 0, run) && run <= RunLimit + 1
    requires forall q :: run < q < |lines| && q <= run + 1 + ThermoLimit + 1 ==> !Contains(lines[q], MemoryMarker)
    ensures FindIterSpec(lines, 0)
         == Err(if |lines| > run + 1 + ThermoLimit + 1 then TypeError(MsgThermo) else ValueError(MsgThermo))
  {
    ScanFinds(lines, 0, 0, RunLine, RunLimit, TypeError(MsgRun), TypeError(MsgRun));
    ScanFinds(lines, run + 1, 0, MemoryLine, ThermoLimit, TypeError(MsgThermo), ValueError(MsgThermo));
  }

  /** A search over `pre + rest` that starts inside `rest` is the same search over
      `rest`, shifted by `|pre|`. */
  lemma {:induction false} ScanShift(pre: seq<string>, rest: seq<string>, p: nat, i: nat, hit: string -> bool, limit: nat,
                                     atLimit: Exc, atEnd: Exc)
    ensures Scan(pre + rest, |pre| + p, i, hit, limit, atLimit, atEnd)
         == match Scan(rest, p, i, hit, limit, atLimit, atEnd)
            case Ok(x) => Ok(|pre| + x)
            case Err(e) => Err(e)
    decreases |rest| - p
  {
    if p < |rest| {
      assert (pre + rest)[|pre| + p] == rest[p];
      ScanShift(pre, rest, p + 1, i + 1, hit, limit, atLimit, atEnd);
    }
  }

  /** A memory-allocation line before the run line (from an energy minimisation,
      say) is not taken: the result depends only on the lines from the run on. */
  lemma EarlyMemoryLineIgnored(pre: seq<string>, rest: seq<string>)
    requires forall q :: 0 <= q < |pre| ==> !RunLine(pre[q])
    requires |pre| <= RunLimit + 1
    requires rest != [] && RunLine(rest[0])
    ensures FindIterSpec(pre + rest, 0)
         == match FindIterSpec(rest, 0)
            case Ok(p) => Ok(|pre| + p)
            case Err(e) => Err(e)
  {
    var lines := pre + rest;
    assert FirstHit(lines, RunLine, 0, |pre|);
    ScanHits(lines, 0, 0, RunLine, RunLimit, TypeError(MsgRun), TypeError(MsgRun), |pre|);
    assert FirstHit(rest, RunLine, 0, 0);
    ScanHits(rest, 0, 0, RunLine, RunLimit, TypeError(MsgRun), TypeError(MsgRun), 0);
    ScanShift(pre, rest, 1, 0, MemoryLine, ThermoLimit, TypeError(MsgThermo), ValueError(MsgThermo));
  }

  /** On success the columns are the whitespace tokens of the line right after the
      memory-allocation line, with the default suggestion. */
  lemma HeaderFollowsMemoryLine(lines: seq<string>, run: nat, mem: nat)
    requires FirstHit(lines, RunLine, 0, run) && run <= RunLimit + 1
    requires FirstHit(lines, MemoryLine, run + 1, mem) && mem <= run + 1 + ThermoLimit + 1
    ensures HeaderSpec(lines) == Ok(Plugin.Header(Split(LineAt(lines, mem + 1)), Plugin.SuggestAxis()))
  {
    FindIterFrom(lines, run, mem);
  }

  /** `run 10` is a run command. */
  lemma RunTen()
    ensures RunLine("run 10\n")
  {
    var s := "run 10\n";
    assert SkipSpace(s, 0) == 0;
    assert LiteralAt(s, 0, "run", true);
    assert SkipSpace(s, 3) == 4 by {
      SkipSpaceOver(s, 3, " ");
    }
  }

  /** The three-line log of `NoBannerNeeded` reaches its last line. */
  lemma SmallLogFound()
    ensures FindIterSpec(["run 10\n", MemoryMarker + "\n", "Step Temp\n"], 0) == Ok(2)
  {
    var lines := ["run 10\n", MemoryMarker + "\n", "Step Temp\n"];
    RunTen();
    assert FirstHit(lines, RunLine, 0, 0);
    assert OccursAt(lines[1], MemoryMarker, 0);
    assert FirstHit(lines, MemoryLine, 1, 1);
    FindIterSucceeds(lines, 2);
  }

  /** `extract_header` never looks at the banner: a log without one still yields a
      header. */
  lemma NoBannerNeeded()
    ensures var lines := ["run 10\n", MemoryMarker + "\n", "Step Temp\n"];
      && !Banner(lines[0])
      && HeaderSpec(lines) == Ok(Plugin.Header(["Step", "Temp"], Plugin.SuggestAxis()))
  {
    var lines := ["run 10\n", MemoryMarker + "\n", "Step Temp\n"];
    assert !LiteralAt(lines[0], 0, "LAMMPS", false) by {
      assert lines[0][0] != "LAMMPS"[0];
    }
    SmallLogFound();
    assert LineAt(lines, 2) == Join(["Step", "Temp"], " ") + "\n";
    SplitJoin(["Step", "Temp"], "\n");
  }
}
