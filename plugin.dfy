/** The plugin contract of `simulation_visualizer/file/parser_meta.py`: parser
    descriptors, the registry the `ParserMount` metaclass builds, the default
    header-based capability check and the default axis suggestion. */
module Plugin {
  import opened Text
  import opened Errors
  import opened Patterns
  import opened Files

  /** Column indices proposed for each plot axis; only `x[0]` is authoritative. */
  datatype Suggest = Suggest(x: seq<nat>, y: seq<nat>, z: seq<nat>, t: seq<nat>)

  predicate AllBelow(xs: seq<nat>, n: nat) {
    forall i :: 0 <= i < |xs| ==> xs[i] < n
  }

  /** Every index of the suggestion addresses one of `n` columns. */
  predicate SuggestFits(s: Suggest, n: nat) {
    AllBelow(s.x, n) && AllBelow(s.y, n) && AllBelow(s.z, n) && AllBelow(s.t, n)
  }

  /** `FileParser._suggest_axis()`: one x column, time on the same column, and
      indices that are valid exactly for headers of at least three columns. */
  function SuggestAxis(): (s: Suggest)
    ensures |s.x| == 1 && |s.y| == 1 && |s.z| == 1 && s.t == s.x
    ensures s.x[0] != s.y[0] && s.y[0] != s.z[0] && s.x[0] != s.z[0]
    ensures forall n: nat :: SuggestFits(s, n) <==> n >= 3
  {
    Suggest([0], [1], [2], [0])
  }

  /** Column names and axis suggestion, what `extract_header` returns. */
  datatype Header = Header(columns: seq<string>, suggest: Suggest)

  /** The compiled `header` pattern of a parser class. */
  datatype Signature = FieldsHeader | LammpsBanner | DeviHeader | LcurveHeader

  /** `cls.header.match(line)` is truthy. */
  predicate Matches(sig: Signature, line: string) {
    match sig
    case FieldsHeader => MatchesAtStart(FieldsWords, line, true)
    case LammpsBanner => Banner(line)
    case DeviHeader => MatchesAtStart(DeviWords, line, true)
    case LcurveHeader => MatchesAtStart(LcurveWords, line, true)
  }

  /** The class attributes a parser declares. */
  datatype Descriptor = Descriptor(name: string, header: Signature, expectedFilename: string)

  /** The value `FileParser` gives `name` and `expected_filename`. */
  const Generic := "GENERIC"

  /** Class-attribute lookup on a parser subclass: what it does not override is
      inherited from `FileParser`. */
  function Declare(name: Option<string>, header: Signature, expected: Option<string>): (d: Descriptor)
    ensures d.header == header
    ensures d.name == (if name.Some? then name.value else Generic)
    ensures d.expectedFilename == (if expected.Some? then expected.value else Generic)
    ensures name.None? && expected.None? ==> d.name == d.expectedFilename
  {
    Descriptor(
      if name.Some? then name.value else Generic,
      header,
      if expected.Some? then expected.value else Generic)
  }

  /** A parser class as an object: its declared attributes and the class-level
      `session_id` that `set_session_id` overwrites for every user of the class. */
  class ParserClass {
    const desc: Descriptor
    var sessionId: Option<string>

    constructor (desc: Descriptor)
      ensures this.desc == desc && sessionId == None
    {
      this.desc := desc;
      sessionId := None;
    }

    /** `cls.set_session_id(session_id)`: one slot, the last writer wins. */
    method SetSessionId(id: string)
      modifies this
      ensures sessionId == Some(id)
    {
      sessionId := Some(id);
    }
  }

  /** The list the `ParserMount` metaclass keeps on `FileParser`. */
  class ParserMount {
    var parsers: seq<ParserClass>

    /** Defining `FileParser` itself: it has no `parsers` yet, so it gets an empty
        list and is not registered. */
    constructor ()
      ensures parsers == []
    {
      parsers := [];
    }

    /** Defining a subclass of `FileParser`: the new class is appended to the
        shared list, whatever its name. */
    method Mount(desc: Descriptor) returns (cls: ParserClass)
      modifies this
      ensures fresh(cls) && cls.desc == desc && cls.sessionId == None
      ensures parsers == old(parsers) + [cls]
    {
      cls := new ParserClass(desc);
      parsers := parsers + [cls];
    }
  }

  /** The declared attributes of the registered classes, in registration order. */
  function Descriptors(ps: seq<ParserClass>): (ds: seq<Descriptor>)
    ensures |ds| == |ps|
    ensures forall i :: 0 <= i < |ps| ==> ds[i] == ps[i].desc
  {
    seq(|ps|, i requires 0 <= i < |ps| => ps[i].desc)
  }

  /** `_file_opener(host, path, fileobj)`: a supplied file object is handed back as
      it is and nothing is opened; otherwise the file is opened at its start, or
      the open raises. (Copying to a local temporary first gives the same lines.) */
  method FileOpener(remote: Remote, host: string, path: string, fileobj: Option<FileHandle>)
    returns (r: Result<FileHandle>)
    requires fileobj.Some? ==> fileobj.value.Valid()
    ensures r.Ok? ==> r.value.Valid()
    ensures fileobj.Some? ==> r == Ok(fileobj.value)
    ensures fileobj.None? && (host, path) in remote ==>
      r.Ok? && fresh(r.value) && r.value.lines == remote[(host, path)] && r.value.pos == 0
    ensures fileobj.None? && (host, path) !in remote ==> r == Err(FileNotFound(path))
  {
    if fileobj.Some? {
      return Ok(fileobj.value);
    }
    if (host, path) !in remote {
      return Err(FileNotFound(path));
    }
    var f := new FileHandle(remote[(host, path)]);
    return Ok(f);
  }

  /** How many `readline` calls the default `can_handle` makes at most. */
  const ScanLimit := 100

  /** A line among the first `ScanLimit` reads matches the signature. */
  predicate Handles(sig: Signature, lines: seq<string>) {
    exists i :: 0 <= i < ScanLimit && Matches(sig, LineAt(lines, i))
  }

  /** `FileParser.can_handle(path, host)`: opens the file, reads up to 100 lines
      and answers whether one of them starts with the class's header pattern;
      nothing is caught, so a failed open reaches the caller. */
  method CanHandle(cls: ParserClass, remote: Remote, host: string, path: string)
    returns (r: Result<bool>)
    ensures (host, path) !in remote ==> r == Err(FileNotFound(path))
    ensures (host, path) in remote ==> r == Ok(Handles(cls.desc.header, remote[(host, path)]))
  {
    var open := FileOpener(remote, host, path, None);
    if open.Err? {
      return Err(open.error);
    }
    var f := open.value;
    ghost var lines := remote[(host, path)];
    var sig := cls.desc.header;
    var k := 0;
    while k < ScanLimit
      invariant 0 <= k <= ScanLimit
      invariant f.Valid() && f.lines == lines
      invariant f.pos == if k < |lines| then k else |lines|
      invariant forall j :: 0 <= j < k ==> !Matches(sig, LineAt(lines, j))
    {
      var line := f.ReadLine();
      if Matches(sig, line) {
        return Ok(true);
      }
      k := k + 1;
    }
    return Ok(false);
  }

  /** A match past the scan window is not seen. */
  lemma LateHeaderNotSeen(sig: Signature, lines: seq<string>, k: nat)
    requires k >= ScanLimit
    requires forall i :: 0 <= i < |lines| && i != k ==> !Matches(sig, lines[i])
    requires !Matches(sig, "")
    ensures !Handles(sig, lines)
  {
  }

  /** Registering two classes under the same name keeps both, in order: the
      registry is a list, not a map from names. */
  method DuplicateNamesKept(d: Descriptor) returns (mount: ParserMount, a: ParserClass, b: ParserClass)
    ensures mount.parsers == [a, b] && a != b
    ensures a.desc.name == b.desc.name == d.name
  {
    mount := new ParserMount();
    a := mount.Mount(d);
    b := mount.Mount(d);
  }
}
