/** `DataExtractor` of `simulation_visualizer/file/extractor.py`: loading the
    parsers, and `extract` and `header` for one or more (host, path) files, built
    on the dispatcher `_get_async`. A failure reaches the caller in one of two
    ways: as an exception object returned in place of the result, or as an
    exception raised out of the call. */
module Extractor {
  import opened Errors
  import opened Files
  import opened Text
  import Plugin
  import Loader
  import Utils
  import opened Jobs
  import opened Attempts
  import opened Dispatch
  import opened Combine
  import DiffNames

  /** The `mode` argument: `"merge"`, `"parallel"` or any other string. */
  datatype Mode = Merge | Parallel | OtherMode

  /** What a call gives back: a value, an exception object returned as the value,
      an exception raised out of the call, or `None`. */
  datatype Answer<T> = Value(value: T) | Returned(error: Exc) | Raised(error: Exc) | NoAnswer

  /** The data `extract` returns: one file's frame, the `merge` concatenation of
      labelled frames, or the `parallel` column-wise join of the frames. */
  datatype Table = Single(frame: Frame) | Stacked(parts: seq<Frame>) | Joined(parts: seq<Frame>)

  /** The prefix of the message of the rejection `extract` never reaches. */
  const MsgColumns := "dataframes do not contain same columns: "

  /** `str(paths)` for a list of strings. */
  function PyListRepr(paths: seq<string>): string {
    "[" + Join(seq(|paths|, i requires 0 <= i < |paths| => "'" + paths[i] + "'"), ", ") + "]"
  }

  /** The message of the `merge` header rejection. */
  function MsgNotSameType(paths: seq<string>): string {
    "files " + PyListRepr(paths) + " are not of same type"
  }

  /** What `extract(mode=mode)` gives for the dispatcher's outcome `d`. In `merge`
      mode the base names are computed lazily inside `zip`, so `commonpath` runs
      (and may raise) only when there is at least one frame. */
  function ExtractSpec(mode: Mode, hosts: seq<string>, paths: seq<string>, d: Collected<Frame>): (r: Answer<Table>)
    ensures d.Raises? ==> r == Raised(d.error)
    ensures d.Exhausted? <==> r.Returned?
    ensures r.Returned? ==> r.error == CannotHandle(MsgUnable)
    ensures r.Raised? ==>
      || d.Raises?
      || (d.Filled? && |hosts| <= 1 && d.slots == [] && r.error == IndexError)
      || (d.Filled? && |hosts| > 1 && mode.Merge? && d.slots != [] && DiffNames.DiffNames(paths).Err?
          && r.error == DiffNames.DiffNames(paths).error)
    ensures r.NoAnswer? <==> d.Filled? && |hosts| > 1 && mode.OtherMode?
    ensures d.Filled? && |hosts| <= 1 && d.slots != [] ==> r == Value(Single(d.slots[0]))
  {
    match d
    case Raises(e) => Raised(e)
    case Exhausted(_) => Returned(CannotHandle(MsgUnable))
    case Filled(data) =>
      if |hosts| <= 1 then
        if data == [] then Raised(IndexError) else Value(Single(data[0]))
      else if mode.Merge? then
        if MergeRejects(data) then Returned(DifferentFile(MsgColumns))
        else if data == [] then Value(Stacked([]))
        else
          match DiffNames.DiffNames(paths)
          case Err(e) => Raised(e)
          case Ok(names) => Value(Stacked(ColorAll(data, names)))
      else if mode.Parallel? then Value(Joined(data))
      else NoAnswer
  }

  /** What `header(mode=mode)` gives for the dispatcher's outcome `d`: every mode
      other than `merge` takes the `parallel` branch. */
  function HeaderSpec(mode: Mode, hosts: seq<string>, paths: seq<string>, d: Collected<Plugin.Header>): (r: Answer<Plugin.Header>)
    ensures d.Raises? ==> r == Raised(d.error)
    ensures d.Exhausted? ==> r == Returned(CannotHandle(MsgUnable))
    ensures r.Raised? ==> d.Raises? || (d.Filled? && d.slots == [] && r.error == IndexError)
    ensures !r.NoAnswer?
    ensures d.Filled? && |hosts| <= 1 && d.slots != [] ==> r == Value(d.slots[0])
  {
    match d
    case Raises(e) => Raised(e)
    case Exhausted(_) => Returned(CannotHandle(MsgUnable))
    case Filled(hs) =>
      if |hosts| <= 1 then
        if hs == [] then Raised(IndexError) else Value(hs[0])
      else if mode == Merge then
        if Utils.AllEqual(hs) then
          if hs == [] then Raised(IndexError) else Value(hs[0])
        else Returned(DifferentFile(MsgNotSameType(paths)))
      else Value(Plugin.Header(SortedUnique(Concat(hs)), ParallelSuggest(hs)))
  }

  /** A `DataExtractor` bound to its files and session. `parsers` is the list the
      registry held when it was created. */
  class DataExtractor {
    const parsers: seq<Plugin.ParserClass>
    const paths: seq<string>
    const hosts: seq<string>
    const sessionId: string

    constructor (parsers: seq<Plugin.ParserClass>, paths: seq<string>, hosts: seq<string>, sessionId: string)
      ensures this.parsers == parsers && this.paths == paths && this.hosts == hosts
      ensures this.sessionId == sessionId
    {
      this.parsers := parsers;
      this.paths := paths;
      this.hosts := hosts;
      this.sessionId := sessionId;
    }

    /** `extract(mode=mode)` with frames as the data. */
    method Extract(mode: Mode, remote: Remote, score: (string, string) -> int,
                   attempts: seq<seq<Result<Frame>>>, order: seq<nat>)
      returns (r: Answer<Table>)
      requires AttemptsFor(attempts, |parsers| * |Utils.Zip(hosts, paths)|)
      requires IsOrder(order, |parsers| * |Utils.Zip(hosts, paths)|)
      modifies parsers
      ensures r == ExtractSpec(mode, hosts, paths, GetAsyncSpec(parsers, hosts, paths, remote, score, attempts, order))
    {
      var d := GetAsync(parsers, sessionId, hosts, paths, remote, score, attempts, order);
      if d.Raises? {
        return Raised(d.error);
      }
      if d.Exhausted? {
        return Returned(CannotHandle(MsgUnable));
      }
      var data := d.slots;
      if |hosts| <= 1 {
        if data == [] {
          return Raised(IndexError);
        }
        return Value(Single(data[0]));
      }
      match mode {
        case Merge =>
          if MergeRejects(data) {
            return Returned(DifferentFile(MsgColumns));
          }
          if data == [] {
            return Value(Stacked([]));
          }
          var names := DiffNames.DiffNames(paths);
          if names.Err? {
            return Raised(names.error);
          }
          var colored := ColorFrames(data, names.value);
          return Value(Stacked(colored));
        case Parallel =>
          return Value(Joined(data));
        case OtherMode =>
          return NoAnswer;
      }
    }

    /** `header(mode=mode)` */
    method Header(mode: Mode, remote: Remote, score: (string, string) -> int,
                  attempts: seq<seq<Result<Plugin.Header>>>, order: seq<nat>)
      returns (r: Answer<Plugin.Header>)
      requires AttemptsFor(attempts, |parsers| * |Utils.Zip(hosts, paths)|)
      requires IsOrder(order, |parsers| * |Utils.Zip(hosts, paths)|)
      modifies parsers
      ensures r == HeaderSpec(mode, hosts, paths, GetAsyncSpec(parsers, hosts, paths, remote, score, attempts, order))
    {
      var d := GetAsync(parsers, sessionId, hosts, paths, remote, score, attempts, order);
      if d.Raises? {
        return Raised(d.error);
      }
      if d.Exhausted? {
        return Returned(CannotHandle(MsgUnable));
      }
      var hs := d.slots;
      if |hosts| <= 1 {
        if hs == [] {
          return Raised(IndexError);
        }
        return Value(hs[0]);
      }
      if mode == Merge {
        if Utils.AllEqual(hs) {
          if hs == [] {
            return Raised(IndexError);
          }
          return Value(hs[0]);
        }
        return Returned(DifferentFile(MsgNotSameType(paths)));
      }
      var h := ParallelHeader(hs);
      return Value(h);
    }
  }

  /** `DataExtractor(paths, hosts, session_id)`: `load_parsers()` runs first, and
      an exception escaping it escapes the constructor; otherwise the extractor
      holds the registry's parsers. */
  method NewDataExtractor(sys: Loader.Modules, mount: Plugin.ParserMount, entries: seq<Loader.Entry>,
                          bodies: map<string, Loader.ModuleBody>,
                          paths: seq<string>, hosts: seq<string>, sessionId: string)
    returns (r: Result<DataExtractor>)
    modifies sys, mount
    ensures var (e, st) := Loader.Load(entries, bodies,
                                       Loader.LoadState(old(sys.imported), Plugin.Descriptors(old(mount.parsers))));
      && Plugin.Descriptors(mount.parsers) == st.registered
      && (e.Some? ==> r == Err(e.value))
      && (e.None? ==> r.Ok? && fresh(r.value) && r.value.parsers == mount.parsers
                      && r.value.paths == paths && r.value.hosts == hosts && r.value.sessionId == sessionId)
  {
    var raised := Loader.LoadParsers(sys, mount, entries, bodies);
    if raised.Some? {
      return Err(raised.value);
    }
    var x := new DataExtractor(mount.parsers, paths, hosts, sessionId);
    return Ok(x);
  }

  // ---------------------------------------------------------------------------
  // Properties of `extract` and `header`

  /** With no parser registered the thread pool cannot be created, and the
      `ValueError` is raised out of both calls rather than returned. */
  lemma NoParsersRaise(mode: Mode, hosts: seq<string>, paths: seq<string>, remote: Remote,
                       score: (string, string) -> int, fa: seq<seq<Result<Frame>>>,
                       ha: seq<seq<Result<Plugin.Header>>>, order: seq<nat>)
    requires AttemptsFor(fa, 0) && AttemptsFor(ha, 0) && IsOrder(order, 0)
    ensures ExtractSpec(mode, hosts, paths, GetAsyncSpec([], hosts, paths, remote, score, fa, order))
      == Raised(ValueError(MsgWorkers))
    ensures HeaderSpec(mode, hosts, paths, GetAsyncSpec([], hosts, paths, remote, score, ha, order))
      == Raised(ValueError(MsgWorkers))
  {
  }

  /** Selecting the same file twice can never be shown: its second slot is never
      filled, so `extract` ends with the returned `CannotHandleException` or an
      exception raised by a parser's capability check. */
  lemma SameFileTwiceNoData(mode: Mode, parsers: seq<Plugin.ParserClass>, hosts: seq<string>, paths: seq<string>,
                            remote: Remote, score: (string, string) -> int,
                            attempts: seq<seq<Result<Frame>>>, order: seq<nat>, j1: nat, j2: nat)
    requires AttemptsFor(attempts, |parsers| * |Utils.Zip(hosts, paths)|)
    requires IsOrder(order, |parsers| * |Utils.Zip(hosts, paths)|)
    requires j1 < j2 < |hosts| && j2 < |paths|
    requires hosts[j1] == hosts[j2] && paths[j1] == paths[j2]
    ensures var r := ExtractSpec(mode, hosts, paths, GetAsyncSpec(parsers, hosts, paths, remote, score, attempts, order));
      r == Returned(CannotHandle(MsgUnable)) || (r.Raised? && !r.error.ValueError?) || (parsers == [] && r == Raised(ValueError(MsgWorkers)))
  {
    DuplicateTargetNeverCompletes(parsers, hosts, paths, remote, score, attempts, order, j1, j2);
  }

  /** `merge` of two files in sibling directories labels the first frame with the
      first directory's name and the second with the second's. */
  lemma MergeLabelsSiblingDirectories(hosts: seq<string>, cs: seq<string>, x: string, y: string, b: string,
                                      f: Frame, g: Frame)
    requires |hosts| == 2
    requires DiffNames.SiblingNames(cs, x, y, b)
    ensures ExtractSpec(Merge, hosts, [DiffNames.InSibling(cs, x, b), DiffNames.InSibling(cs, y, b)], Filled([f, g]))
      == Value(Stacked([Colored(f, x), Colored(g, y)]))
  {
    var paths := [DiffNames.InSibling(cs, x, b), DiffNames.InSibling(cs, y, b)];
    DiffNames.SiblingDirectories(cs, x, y, b);
    MergeTwo(hosts, paths, f, g, x, y);
  }

  lemma MergeTwo(hosts: seq<string>, paths: seq<string>, f: Frame, g: Frame, x: string, y: string)
    requires |hosts| > 1
    requires DiffNames.DiffNames(paths) == Ok([x, y])
    ensures ExtractSpec(Merge, hosts, paths, Filled([f, g])) == Value(Stacked([Colored(f, x), Colored(g, y)]))
  {
    MergeWithNames(hosts, paths, [f, g], [x, y]);
    ColorTwo(f, g, x, y);
  }

  lemma ColorTwo(f: Frame, g: Frame, x: string, y: string)
    ensures ColorAll([f, g], [x, y]) == [Colored(f, x), Colored(g, y)]
  {
    var r := ColorAll([f, g], [x, y]);
    assert r[0] == Colored(f, x) && r[1] == Colored(g, y);
  }

  /** `merge` of several frames when the base names come out as `names`. */
  lemma MergeWithNames(hosts: seq<string>, paths: seq<string>, data: seq<Frame>, names: seq<string>)
    requires |hosts| > 1 && data != []
    requires DiffNames.DiffNames(paths) == Ok(names)
    ensures ExtractSpec(Merge, hosts, paths, Filled(data)) == Value(Stacked(ColorAll(data, names)))
  {
  }

  /** `merge` of an absolute and a relative path raises the `ValueError` of
      `commonpath` out of `extract`. */
  lemma MergeMixedPathsRaise(hosts: seq<string>, paths: seq<string>, data: seq<Frame>, i: nat, j: nat)
    requires |hosts| > 1 && data != []
    requires i < |paths| && j < |paths| && DiffNames.IsAbs(paths[i]) && !DiffNames.IsAbs(paths[j])
    ensures ExtractSpec(Merge, hosts, paths, Filled(data)) == Raised(ValueError(DiffNames.MsgMixedPaths))
  {
    var k := if DiffNames.IsAbs(paths[0]) then j else i;
    assert DiffNames.IsAbs(paths[k]) != DiffNames.IsAbs(paths[0]);
    assert DiffNames.CommonPath(paths).Err?;
  }

  /** `merge` accepts several headers exactly when all of them are equal, and then
      answers the first; otherwise it returns a `DifferentFileError` naming the
      paths. */
  lemma HeaderMergeIffEqual(hosts: seq<string>, paths: seq<string>, hs: seq<Plugin.Header>)
    requires |hosts| > 1 && hs != []
    ensures HeaderSpec(Merge, hosts, paths, Filled(hs)) == Value(hs[0])
      <==> forall i, j :: 0 <= i < |hs| && 0 <= j < |hs| ==> hs[i] == hs[j]
    ensures HeaderSpec(Merge, hosts, paths, Filled(hs)) != Value(hs[0]) ==>
      HeaderSpec(Merge, hosts, paths, Filled(hs)) == Returned(DifferentFile(MsgNotSameType(paths)))
  {
    Utils.AllEqualMeans(hs);
  }

  /** The columns of the `parallel` header are the columns of all the files, each
      named once, in ascending order. */
  lemma HeaderParallelColumns(mode: Mode, hosts: seq<string>, paths: seq<string>, hs: seq<Plugin.Header>)
    requires |hosts| > 1 && mode != Merge
    ensures var r := HeaderSpec(mode, hosts, paths, Filled(hs));
      && r.Value? && StrictlySorted(r.value.columns)
      && forall c :: c in r.value.columns <==> exists i :: 0 <= i < |hs| && c in hs[i].columns
  {
    ConcatMembers(hs);
  }

  /** The members of `Concat(hs)` are the columns of the headers. */
  lemma {:induction false} ConcatMembers(hs: seq<Plugin.Header>)
    ensures forall c :: c in Concat(hs) <==> exists i :: 0 <= i < |hs| && c in hs[i].columns
    decreases |hs|
  {
    if hs != [] {
      var init := hs[..|hs| - 1];
      ConcatMembers(init);
      forall c
        ensures c in Concat(hs) <==> exists i :: 0 <= i < |hs| && c in hs[i].columns
      {
        if c in Concat(hs) && c !in hs[|hs| - 1].columns {
          assert c in Concat(init);
          var i :| 0 <= i < |init| && c in init[i].columns;
          assert hs[i] == init[i];
        }
        if exists i :: 0 <= i < |hs| && c in hs[i].columns {
          var i :| 0 <= i < |hs| && c in hs[i].columns;
          if i < |hs| - 1 {
            assert init[i] == hs[i];
          }
        }
      }
    }
  }
}
