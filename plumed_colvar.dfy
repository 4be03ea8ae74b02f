/** `PlumedMetaDParser.extract_header` of
    `simulation_visualizer/file/parsers/plumed_colvar.py`: the column names of a
    PLUMED COLVAR file come from its first line, `#! FIELDS name name ...`. The
    file is given by its lines; opening it is `Plugin.FileOpener`. */
module PlumedColvar {
  import opened Text
  import opened Errors
  import opened Patterns
  import opened Files
  import Plugin

  const MsgUnsupported := "Unsupported header format"

  /** `re.sub(r"#!\s*FIELDS\s*", "", line).split()`: the marker is removed
      case-sensitively, wherever it occurs. */
  function FieldNames(line: string): (names: seq<string>)
    ensures AreTokens(names)
  {
    Split(SubWords(FieldsWords, line, 0))
  }

  /** `PlumedMetaDParser.extract_header(path, host)`: one `readline`, then the
      names after the marker or `ValueError`. */
  function ExtractHeader(lines: seq<string>): (r: Result<Plugin.Header>)
    ensures r.Ok? <==> Plugin.Matches(Plugin.FieldsHeader, LineAt(lines, 0))
    ensures r.Err? ==> r.error == ValueError(MsgUnsupported)
    ensures r.Ok? ==> r.value.suggest == Plugin.SuggestAxis() && AreTokens(r.value.columns)
  {
    var line := LineAt(lines, 0);
    if Plugin.Matches(Plugin.FieldsHeader, line) then
      Ok(Plugin.Header(FieldNames(line), Plugin.SuggestAxis()))
    else
      Err(ValueError(MsgUnsupported))
  }

  /** A field name as PLUMED writes it: a non-empty token without `#`. */
  predicate FieldName(t: string) {
    t != [] && NoSpace(t) && '#' !in t
  }

  /** The FIELDS line PLUMED writes for these names, ending in whitespace `w`. */
  function FieldsLine(names: seq<string>, w: string): string {
    "#! FIELDS " + Join(names, " ") + w
  }

  /** The marker of a FIELDS line ends at index 10, where the first name starts. */
  lemma FieldsLineMarker(names: seq<string>, w: string, ci: bool)
    requires names != [] && forall i :: 0 <= i < |names| ==> FieldName(names[i])
    ensures WordsMatch(FieldsWords, FieldsLine(names, w), 0, ci) == Some(10)
  {
    var line := FieldsLine(names, w);
    assert PatternWords(FieldsWords) by {
      assert FieldsWords[0][0] == '#' && FieldsWords[1][0] == 'F';
    }
    assert Join(FieldsWords, " ") == "#! FIELDS";
    assert line == "#! FIELDS" + (" " + Join(names, " ") + w);
    assert OccursAt(line, Join(FieldsWords, " "), 0);
    JoinFirst(names, " ");
    assert line[10] == names[0][0];
    assert line[9..10] == " ";
    SkipSpaceOver(line, 9, " ");
    assert FieldsWords + [] == FieldsWords;
    WordsMatchJoin(FieldsWords, [], line, 0, ci);
  }

  /** Removal leaves alone a tail without `#`. */
  lemma HashFreeTail(line: string, x: string)
    requires |line| >= 10 && line[10..] == x
    requires '#' !in x
    ensures SubWords(FieldsWords, line, 10) == x
  {
    SubWordsNoStart(FieldsWords, line, 10);
  }

  /** Whitespace holds no `#`. */
  lemma SpaceHasNoHash(w: string)
    requires AllSpace(w)
    ensures '#' !in w
  {
    assert forall k :: 0 <= k < |w| ==> IsSpace(w[k]);
  }

  /** After the marker a FIELDS line is the joined names and the whitespace. */
  lemma FieldsLineTail(names: seq<string>, w: string)
    ensures |FieldsLine(names, w)| >= 10 && FieldsLine(names, w)[10..] == Join(names, " ") + w
  {
  }

  /** Writing a FIELDS line and extracting the header gives the names back, with
      the default suggestion, whatever lines follow. */
  lemma FieldsRoundTrip(names: seq<string>, w: string, rest: seq<string>)
    requires names != [] && forall i :: 0 <= i < |names| ==> FieldName(names[i])
    requires AllSpace(w)
    ensures ExtractHeader([FieldsLine(names, w)] + rest) == Ok(Plugin.Header(names, Plugin.SuggestAxis()))
  {
    var line := FieldsLine(names, w);
    assert LineAt([line] + rest, 0) == line;
    FieldsLineMarker(names, w, true);
    FieldsLineMarker(names, w, false);
    assert Plugin.Matches(Plugin.FieldsHeader, line);
    assert SubWords(FieldsWords, line, 0) == SubWords(FieldsWords, line, 10);
    FieldsLineTail(names, w);
    JoinAvoids(names, " ", '#');
    SpaceHasNoHash(w);
    HashFreeTail(line, Join(names, " ") + w);
    assert AreTokens(names);
    SplitJoin(names, w);
  }

  /** `#! fields` matches the marker only when case is ignored. */
  lemma LowerCaseMarker(r: string)
    ensures WordsMatch(FieldsWords, "#! fields" + r, 0, true).Some?
    ensures WordsMatch(FieldsWords, "#! fields" + r, 0, false).None?
  {
    var line := "#! fields" + r;
    LowerFieldsAt(line);
    assert FieldsWords[0] == "#!" && FieldsWords[1..] == ["FIELDS"];
    assert ["FIELDS"][0] == "FIELDS" && ["FIELDS"][1..] == [];
  }

  /** The literals of the marker against a line starting `#! fields`: `#!` matches,
      one space follows, and `FIELDS` matches only when case is ignored. */
  lemma LowerFieldsAt(line: string)
    requires |line| >= 9 && line[..9] == "#! fields"
    ensures LiteralAt(line, 0, "#!", true) && LiteralAt(line, 0, "#!", false)
    ensures SkipSpace(line, 2) == 3
    ensures LiteralAt(line, 3, "FIELDS", true) && !LiteralAt(line, 3, "FIELDS", false)
  {
    LowerFieldsChars(line);
    assert line[2..3] == " ";
    SkipSpaceOver(line, 2, " ");
    LowerFieldsLetters(line);
  }

  /** The characters of a line starting `#! fields`. */
  lemma LowerFieldsChars(line: string)
    requires |line| >= 9 && line[..9] == "#! fields"
    ensures line[0] == '#' && line[1] == '!' && line[2] == ' '
    ensures line[3] == 'f' && line[4] == 'i' && line[5] == 'e'
    ensures line[6] == 'l' && line[7] == 'd' && line[8] == 's'
  {
    assert forall k :: 0 <= k < 9 ==> line[..9][k] == line[k];
  }

  /** `fields` is `FIELDS` when case is ignored, and only then. */
  lemma LowerFieldsLetters(line: string)
    requires |line| >= 9
    requires line[3] == 'f' && line[4] == 'i' && line[5] == 'e'
    requires line[6] == 'l' && line[7] == 'd' && line[8] == 's'
    ensures LiteralAt(line, 3, "FIELDS", true) && !LiteralAt(line, 3, "FIELDS", false)
  {
    var w := "FIELDS";
    forall k | 0 <= k < 6
      ensures Lower(line[3 + k]) == Lower(w[k])
    {
      if k == 0 { assert w[k] == 'F'; }
      else if k == 1 { assert w[k] == 'I'; }
      else if k == 2 { assert w[k] == 'E'; }
      else if k == 3 { assert w[k] == 'L'; }
      else if k == 4 { assert w[k] == 'D'; }
      else { assert w[k] == 'S'; }
    }
    assert line[3] != w[0];
  }

  /** Removal leaves alone a line where the marker does not match at the start
      and no `#` follows the first character. */
  lemma NoMarkerNoChange(line: string)
    requires line != [] && WordsMatch(FieldsWords, line, 0, false).None?
    requires '#' !in line[1..]
    ensures SubWords(FieldsWords, line, 0) == line
  {
    SubWordsNoStart(FieldsWords, line, 1);
    assert [line[0]] + line[1..] == line;
  }

  /** Detection ignores case but removal does not: a lower-case `#! fields` line is
      accepted, and its marker comes back as two column names. */
  lemma LowerCaseMarkerKept(line: string)
    requires line == "#! fields time d1\n"
    ensures ExtractHeader([line]) == Ok(Plugin.Header(["#!", "fields", "time", "d1"], Plugin.SuggestAxis()))
  {
    assert LineAt([line], 0) == line;
    LowerCaseLineKept(line);
  }

  /** The lower-case line is accepted and removal leaves it as it is. */
  lemma LowerCaseLineKept(line: string)
    requires line == "#! fields time d1\n"
    ensures Plugin.Matches(Plugin.FieldsHeader, line)
    ensures FieldNames(line) == ["#!", "fields", "time", "d1"]
  {
    assert line == "#! fields" + " time d1\n";
    LowerCaseMarker(" time d1\n");
    assert '#' !in line[1..] by {
      assert line[1..] == "! fields time d1\n";
    }
    NoMarkerNoChange(line);
    LowerCaseLineTokens();
  }

  lemma LowerCaseLineTokens()
    ensures Split("#! fields time d1\n") == ["#!", "fields", "time", "d1"]
  {
    var ts := ["#!", "fields", "time", "d1"];
    assert "#! fields time d1\n" == Join(ts, " ") + "\n";
    LowerCaseTokens(ts);
    SplitJoin(ts, "\n");
  }

  lemma LowerCaseTokens(ts: seq<string>)
    requires ts == ["#!", "fields", "time", "d1"]
    ensures AreTokens(ts)
  {
    assert NoSpace(ts[0]) && NoSpace(ts[1]) && NoSpace(ts[2]) && NoSpace(ts[3]);
  }

  /** The 100-line scan of `can_handle` accepts a file whose FIELDS line comes
      second, but `extract_header` reads only the first line and rejects it. */
  lemma ScanAcceptsExtractRejects()
    ensures var lines := ["# comment\n", "#! FIELDS a\n"];
      && Plugin.Handles(Plugin.FieldsHeader, lines)
      && ExtractHeader(lines) == Err(ValueError(MsgUnsupported))
  {
    var lines := ["# comment\n", "#! FIELDS a\n"];
    assert !LiteralAt(lines[0], 0, "#!", true) by {
      assert Lower(lines[0][1]) != Lower("#!"[1]);
    }
    FieldsRoundTrip(["a"], "\n", []);
    assert FieldsLine(["a"], "\n") == lines[1];
    assert Plugin.Matches(Plugin.FieldsHeader, LineAt(lines, 1));
  }
}
