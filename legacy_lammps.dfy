/** `LammpsMetaDParser` of the older `simulation_visualizer/parsers/lmp_metad_run.py`.

    `extract_header` checks the LAMMPS version banner on the first line, rewinds,
    and takes the column names from the first `thermo_style custom ...` command.
    `extract_data` then goes on reading the same file to the "Per MPI rank memory
    allocation" line and skips one more line, the thermo table's own header, so
    that the numeric rows come next. */
module LegacyLammps {
  import opened Text
  import opened Errors
  import opened Patterns
  import opened Files
  import Plugin
  import LammpsLog

  const MsgUnsupported := "Unsupported header format"
  const MsgNoThermo := "couldn't find start of thermo output in lammps file: "

  /** The two kinds of line the parser looks for. */
  datatype Kind = ThermoStyle | Memory

  /** `re.match(r"thermo_style\s*custom\s*", line, re.I)` for `ThermoStyle`;
      `"Per MPI rank memory allocation" in line` for `Memory`. */
  predicate Is(k: Kind, line: string) {
    match k
    case ThermoStyle => MatchesAtStart(ThermoWords, line, true)
    case Memory => Contains(line, LammpsLog.MemoryMarker)
  }

  /** Index of the first line of kind `k` at or after `p`, or `|lines|`. */
  function First(lines: seq<string>, p: nat, k: Kind): (j: nat)
    requires p <= |lines|
    ensures p <= j <= |lines|
    ensures j < |lines| ==> Is(k, lines[j])
    ensures forall q :: p <= q < j ==> !Is(k, lines[q])
    decreases |lines| - p
  {
    if p == |lines| || Is(k, lines[p]) then p else First(lines, p + 1, k)
  }

  /** `re.sub(r"thermo_style\s*custom\s*", "", line).split()`: removal is
      case-sensitive, although detection is not. */
  function ThermoNames(line: string): (names: seq<string>)
    ensures AreTokens(names)
  {
    Split(SubWords(ThermoWords, line, 0))
  }

  /** What `extract_header` returns and where it leaves the file. */
  datatype HeaderRead = HeaderRead(names: seq<string>, pos: nat)

  /** `extract_header` on a file positioned at `p0`: `ValueError` unless the line
      read there starts with the banner; otherwise, reading again from line 0, the
      names of the first `thermo_style custom` line, the file left just after it,
      or no names and the file at its end. */
  function HeaderSpec(lines: seq<string>, p0: nat): (r: Result<HeaderRead>)
    ensures r.Err? <==> !Banner(LineAt(lines, p0))
    ensures r.Err? ==> r.error == ValueError(MsgUnsupported)
    ensures r.Ok? ==> r.value.pos <= |lines|
  {
    if !Banner(LineAt(lines, p0)) then Err(ValueError(MsgUnsupported))
    else
      var k := First(lines, 0, ThermoStyle);
      if k < |lines| then Ok(HeaderRead(ThermoNames(lines[k]), k + 1))
      else Ok(HeaderRead([], |lines|))
  }

  /** `LammpsMetaDParser.extract_header(path, host, fileobj)` on an open file. */
  method ExtractHeader(f: FileHandle) returns (r: Result<seq<string>>)
    requires f.Valid()
    modifies f
    ensures f.Valid()
    ensures var s := HeaderSpec(f.lines, old(f.pos));
      && (s.Ok? ==> r == Ok(s.value.names) && f.pos == s.value.pos)
      && (s.Err? ==> r == Err(s.error))
  {
    var line := f.ReadLine();
    if !Banner(line) {
      return Err(ValueError(MsgUnsupported));
    }
    f.Rewind();
    ghost var k := First(f.lines, 0, ThermoStyle);
    var header := [];
    while true
      invariant f.Valid() && f.pos <= k
      invariant First(f.lines, f.pos, ThermoStyle) == k
      decreases |f.lines| - f.pos
    {
      var more, l := f.Next();
      if !more {
        break;
      }
      if Is(ThermoStyle, l) {
        header := ThermoNames(l);
        break;
      }
    }
    return Ok(header);
  }

  /** Where the thermo rows start, with the names `extract_header` found. */
  datatype DataStart = DataStart(names: seq<string>, start: nat)

  /** `extract_data` up to the numeric rows: after `extract_header`, the first
      memory-allocation line from where it left the file, then one more line;
      `ValueError` naming the path when there is none. */
  function DataSpec(lines: seq<string>, p0: nat, path: string): (r: Result<DataStart>)
    ensures r.Ok? ==> r.value.start <= |lines|
  {
    match HeaderSpec(lines, p0)
    case Err(e) => Err(e)
    case Ok(h) =>
      var j := First(lines, h.pos, Memory);
      if j < |lines| then Ok(DataStart(h.names, if j + 1 < |lines| then j + 2 else j + 1))
      else Err(ValueError(MsgNoThermo + path))
  }

  /** `LammpsMetaDParser.extract_data(path, host, fileobj)` up to the point where
      the rows are handed to `numpy.genfromtxt`: the column names, with the file
      left at the first row. */
  method ExtractData(f: FileHandle, path: string) returns (r: Result<seq<string>>)
    requires f.Valid()
    modifies f
    ensures f.Valid()
    ensures var s := DataSpec(f.lines, old(f.pos), path);
      && (s.Ok? ==> r == Ok(s.value.names) && f.pos == s.value.start)
      && (s.Err? ==> r == Err(s.error))
  {
    var header := ExtractHeader(f);
    if header.Err? {
      return header;
    }
    ghost var j := First(f.lines, f.pos, Memory);
    while true
      invariant f.Valid() && f.pos <= j
      invariant First(f.lines, f.pos, Memory) == j
      decreases |f.lines| - f.pos
    {
      var more, l := f.Next();
      if !more {
        return Err(ValueError(MsgNoThermo + path));
      }
      if Is(Memory, l) {
        var _ := f.ReadLine();
        break;
      }
    }
    return header;
  }

  /** `extract_header(path, host)` with no file object: the file is opened at its
      start. */
  method HeaderOf(remote: Remote, host: string, path: string) returns (r: Result<seq<string>>)
    ensures (host, path) !in remote ==> r == Err(FileNotFound(path))
    ensures (host, path) in remote ==>
      var s := HeaderSpec(remote[(host, path)], 0);
      r == if s.Ok? then Ok(s.value.names) else Err(s.error)
  {
    var open := Plugin.FileOpener(remote, host, path, None);
    if open.Err? {
      return Err(open.error);
    }
    r := ExtractHeader(open.value);
  }

  /** `extract_data(path, host)` with no file object, up to the rows. */
  method DataOf(remote: Remote, host: string, path: string) returns (r: Result<DataStart>)
    ensures (host, path) !in remote ==> r == Err(FileNotFound(path))
    ensures (host, path) in remote ==> r == DataSpec(remote[(host, path)], 0, path)
  {
    var open := Plugin.FileOpener(remote, host, path, None);
    if open.Err? {
      return Err(open.error);
    }
    var f := open.value;
    var names := ExtractData(f, path);
    if names.Err? {
      return Err(names.error);
    }
    return Ok(DataStart(names.value, f.pos));
  }

  // ---------------------------------------------------------------------------
  // Properties

  /** The banner line is never taken for a `thermo_style` line: it starts with an
      upper-case `L`, and no case of it is a `t`. */
  lemma BannerIsNotThermo(line: string)
    requires Banner(line)
    ensures !Is(ThermoStyle, line)
  {
    assert line[0 + 0] == "LAMMPS"[0];
    assert Lower(line[0 + 0]) == 'l' != Lower(ThermoWords[0][0]);
  }

  /** Only the first `thermo_style custom` line is used, and the file is left just
      after it. */
  lemma FirstThermoUsed(lines: seq<string>, k: nat)
    requires Banner(LineAt(lines, 0))
    requires k < |lines| && Is(ThermoStyle, lines[k])
    requires forall q :: 0 <= q < k ==> !Is(ThermoStyle, lines[q])
    ensures HeaderSpec(lines, 0) == Ok(HeaderRead(ThermoNames(lines[k]), k + 1))
  {
    FirstIs(lines, 0, ThermoStyle, k);
  }

  /** The first line of a kind is the one before which there is none. */
  lemma FirstIs(lines: seq<string>, p: nat, kind: Kind, k: nat)
    requires p <= k < |lines| && Is(kind, lines[k])
    requires forall q :: p <= q < k ==> !Is(kind, lines[q])
    ensures First(lines, p, kind) == k
  {
    var j := First(lines, p, kind);
    assert j <= k;
  }

  /** A line of a kind is found from `p` exactly when there is one at or after `p`. */
  lemma FirstFound(lines: seq<string>, p: nat, kind: Kind)
    requires p <= |lines|
    ensures First(lines, p, kind) < |lines| <==> exists j :: p <= j < |lines| && Is(kind, lines[j])
  {
    if exists j :: p <= j < |lines| && Is(kind, lines[j]) {
      var j :| p <= j < |lines| && Is(kind, lines[j]);
      assert First(lines, p, kind) <= j;
    }
  }

  /** With the banner, `extract_header` leaves the file after the first
      `thermo_style custom` line, or at the end. */
  lemma HeaderPos(lines: seq<string>)
    requires Banner(LineAt(lines, 0))
    ensures var k := First(lines, 0, ThermoStyle);
      HeaderSpec(lines, 0).Ok? && HeaderSpec(lines, 0).value.pos == if k < |lines| then k + 1 else |lines|
  {
  }

  /** Without a `thermo_style custom` line the header is empty, and then
      `extract_data` cannot find the thermo output: the memory search starts at
      the end of the file. */
  lemma NoThermoNoData(lines: seq<string>, path: string)
    requires Banner(LineAt(lines, 0))
    requires forall q :: 0 <= q < |lines| ==> !Is(ThermoStyle, lines[q])
    ensures HeaderSpec(lines, 0) == Ok(HeaderRead([], |lines|))
    ensures DataSpec(lines, 0, path) == Err(ValueError(MsgNoThermo + path))
  {
  }

  /** `extract_data` succeeds exactly when some memory-allocation line follows
      the first `thermo_style custom` line; the rows then start two lines after
      the first such memory line, or at the end of the file. */
  lemma DataFound(lines: seq<string>, path: string)
    requires Banner(LineAt(lines, 0))
    ensures var k := First(lines, 0, ThermoStyle);
      DataSpec(lines, 0, path).Ok? <==> exists j :: k < j < |lines| && Is(Memory, lines[j])
    ensures var k := First(lines, 0, ThermoStyle);
      DataSpec(lines, 0, path).Ok? ==>
        var j := First(lines, k + 1, Memory);
        k < j < |lines| && DataSpec(lines, 0, path).value.start == if j + 1 < |lines| then j + 2 else j + 1
  {
    var k := First(lines, 0, ThermoStyle);
    HeaderPos(lines);
    var p := HeaderSpec(lines, 0).value.pos;
    FirstFound(lines, p, Memory);
  }

  /** A memory-allocation line before the `thermo_style` command does not count:
      with the banner, such a line and the command first, the search starts after
      the command. */
  lemma EarlyMemoryLineIgnored(banner: string, mem: string, thermo: string, rest: seq<string>, path: string)
    requires Banner(banner) && Is(Memory, mem) && !Is(ThermoStyle, mem)
    requires Is(ThermoStyle, thermo)
    ensures DataSpec([banner, mem, thermo] + rest, 0, path).Ok?
        <==> exists j :: 0 <= j < |rest| && Is(Memory, rest[j])
  {
    var lines := [banner, mem, thermo] + rest;
    BannerIsNotThermo(banner);
    assert LineAt(lines, 0) == banner;
    FirstThermoUsed(lines, 2);
    DataFound(lines, path);
    if exists j :: 0 <= j < |rest| && Is(Memory, rest[j]) {
      var j :| 0 <= j < |rest| && Is(Memory, rest[j]);
      assert lines[j + 3] == rest[j];
    }
    if exists j :: 2 < j < |lines| && Is(Memory, lines[j]) {
      var j :| 2 < j < |lines| && Is(Memory, lines[j]);
      assert rest[j - 3] == lines[j];
    }
  }

  /** The command LAMMPS echoes for `thermo_style custom` with these names. */
  function ThermoStyleLine(names: seq<string>, w: string): string {
    "thermo_style custom " + Join(names, " ") + w
  }

  /** The command's words end at index 20, where the first name starts. */
  lemma ThermoStyleMarker(names: seq<string>, w: string, ci: bool)
    requires names != [] && AreTokens(names)
    ensures WordsMatch(ThermoWords, ThermoStyleLine(names, w), 0, ci) == Some(20)
  {
    var line := ThermoStyleLine(names, w);
    assert PatternWords(ThermoWords) by {
      assert ThermoWords[0][0] == 't' && ThermoWords[1][0] == 'c';
    }
    assert Join(ThermoWords, " ") == "thermo_style custom";
    assert line == "thermo_style custom" + (" " + Join(names, " ") + w);
    assert OccursAt(line, Join(ThermoWords, " "), 0);
    JoinFirst(names, " ");
    assert line[20] == names[0][0];
    assert line[19..20] == " ";
    SkipSpaceOver(line, 19, " ");
    assert ThermoWords + [] == ThermoWords;
    WordsMatchJoin(ThermoWords, [], line, 0, ci);
  }

  /** Writing the command and reading it back gives the names, as long as the
      command word does not occur again among them. */
  lemma ThermoRoundTrip(names: seq<string>, w: string)
    requires names != [] && AreTokens(names) && AllSpace(w)
    requires !Contains(Join(names, " ") + w, ThermoWords[0])
    ensures Is(ThermoStyle, ThermoStyleLine(names, w))
    ensures ThermoNames(ThermoStyleLine(names, w)) == names
  {
    var line := ThermoStyleLine(names, w);
    ThermoStyleMarker(names, w, true);
    ThermoStyleMarker(names, w, false);
    assert SubWords(ThermoWords, line, 0) == SubWords(ThermoWords, line, 20);
    ThermoStyleRest(names, w);
    SubWordsNoOccurrence(ThermoWords, line, 20);
    SplitJoin(names, w);
  }

  /** The names start at index 20, after `thermo_style custom `. */
  lemma ThermoStyleRest(names: seq<string>, w: string)
    ensures |ThermoStyleLine(names, w)| >= 20
    ensures ThermoStyleLine(names, w)[20..] == Join(names, " ") + w
  {
    var command := "thermo_style custom ";
    var rest := Join(names, " ") + w;
    assert |command| == 20;
    assert ThermoStyleLine(names, w) == command + rest;
    assert (command + rest)[|command|..] == rest;
  }

  /** A log with the banner, lines without the command, then the command: the
      header is the command's names and the file is left after the command. */
  lemma HeaderRoundTrip(banner: string, before: seq<string>, names: seq<string>, w: string, after: seq<string>)
    requires Banner(banner)
    requires forall q :: 0 <= q < |before| ==> !Is(ThermoStyle, before[q])
    requires names != [] && AreTokens(names) && AllSpace(w)
    requires !Contains(Join(names, " ") + w, ThermoWords[0])
    ensures HeaderSpec([banner] + before + [ThermoStyleLine(names, w)] + after, 0)
         == Ok(HeaderRead(names, |before| + 2))
  {
    var line := ThermoStyleLine(names, w);
    var lines := [banner] + before + [line] + after;
    var k := |before| + 1;
    BannerIsNotThermo(banner);
    ThermoRoundTrip(names, w);
    assert LineAt(lines, 0) == banner;
    assert lines[k] == line;
    forall q | 0 <= q < k
      ensures !Is(ThermoStyle, lines[q])
    {
      if q > 0 {
        assert lines[q] == before[q - 1];
      }
    }
    FirstThermoUsed(lines, k);
  }

  /** Whatever `extract_header` finds, `extract_data` reports the same names. */
  lemma DataKeepsHeader(lines: seq<string>, p0: nat, path: string)
    requires DataSpec(lines, p0, path).Ok?
    ensures HeaderSpec(lines, p0).Ok?
    ensures DataSpec(lines, p0, path).value.names == HeaderSpec(lines, p0).value.names
    ensures DataSpec(lines, p0, path).value.start > HeaderSpec(lines, p0).value.pos
  {
  }
}
