/** The plugin contract of the older `simulation_visualizer/parser.py`. Its
    `ParserMount` metaclass, `set_session_id` and `_file_opener` behave exactly like
    the ones in `Plugin`, which this module reuses; what differs is the one-line
    capability check and the three-axis suggestion. */
module LegacyPlugin {
  import opened Text
  import opened Errors
  import opened Patterns
  import opened Files
  import Plugin

  /** The legacy suggestion: no `t` axis. */
  datatype LegacySuggest = LegacySuggest(x: seq<nat>, y: seq<nat>, z: seq<nat>)

  /** `FileParser._suggest_axis()` of `parser.py`: the newer default without its
      `t` entry. */
  function SuggestAxis(): (s: LegacySuggest)
    ensures |s.x| == 1 && |s.y| == 1 && |s.z| == 1
    ensures s.x[0] != s.y[0] && s.y[0] != s.z[0] && s.x[0] != s.z[0]
    ensures s.x == Plugin.SuggestAxis().x && s.y == Plugin.SuggestAxis().y && s.z == Plugin.SuggestAxis().z
  {
    LegacySuggest([0], [1], [2])
  }

  /** `FileParser.can_handle(path, host)` of `parser.py`: opens the file, reads one
      line and answers whether the header pattern matches at its start. */
  method CanHandle(cls: Plugin.ParserClass, remote: Remote, host: string, path: string)
    returns (r: Result<bool>)
    ensures (host, path) !in remote ==> r == Err(FileNotFound(path))
    ensures (host, path) in remote ==>
      r == Ok(Plugin.Matches(cls.desc.header, LineAt(remote[(host, path)], 0)))
  {
    var open := Plugin.FileOpener(remote, host, path, None);
    if open.Err? {
      return Err(open.error);
    }
    var line := open.value.ReadLine();
    return Ok(Plugin.Matches(cls.desc.header, line));
  }

  /** Whatever the one-line check accepts, the 100-line scan accepts too. */
  lemma LegacyAcceptImpliesScan(sig: Plugin.Signature, lines: seq<string>)
    requires Plugin.Matches(sig, LineAt(lines, 0))
    ensures Plugin.Handles(sig, lines)
  {
    assert 0 < Plugin.ScanLimit;
  }

  /** The converse fails: a COLVAR file whose `#! FIELDS` line is second passes the
      100-line scan but not the one-line check. */
  lemma ScanAcceptsWhereLegacyRejects()
    ensures var lines := ["x\n", "#! FIELDS a\n"];
      && Plugin.Handles(Plugin.FieldsHeader, lines)
      && !Plugin.Matches(Plugin.FieldsHeader, LineAt(lines, 0))
  {
    var lines := ["x\n", "#! FIELDS a\n"];
    assert !LiteralAt(lines[0], 0, "#!", true) by {
      assert Lower(lines[0][0]) != Lower("#!"[0]);
    }
    assert LiteralAt(lines[1], 0, "#!", true);
    assert SkipSpace(lines[1], 2) == 3 by {
      SkipSpaceOver(lines[1], 2, " ");
    }
    assert LiteralAt(lines[1], 3, "FIELDS", true);
    assert Plugin.Matches(Plugin.FieldsHeader, LineAt(lines, 1));
  }
}
