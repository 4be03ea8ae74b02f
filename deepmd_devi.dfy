/** `DeepMDModelDeviationParser.extract_header` of
    `simulation_visualizer/parsers/dpmd_devi.py`: the header of a DeePMD-kit
    model-deviation file, `# step max_devi_e ... avg_devi_f`, read from its first
    line. */
module DeepmdDevi {
  import opened Text
  import opened Errors
  import opened Patterns
  import opened Files
  import Plugin

  const MsgUnsupported := "Unsupported header format"

  /** `extract_header(path, host)`: one `readline`; if the header pattern matches at
      its start, the line with every `#` and the whitespace after it removed, split
      on whitespace; otherwise `ValueError`. */
  function ExtractHeader(lines: seq<string>): (r: Result<seq<string>>)
    ensures r.Ok? <==> Plugin.Matches(Plugin.DeviHeader, LineAt(lines, 0))
    ensures r.Err? ==> r.error == ValueError(MsgUnsupported)
    ensures r.Ok? ==> AreTokens(r.value)
  {
    var line := LineAt(lines, 0);
    if Plugin.Matches(Plugin.DeviHeader, line) then Ok(Split(SubWords(HashWords, line, 0)))
    else Err(ValueError(MsgUnsupported))
  }

  /** The seven column names the pattern requires. */
  function DeviNames(): (ns: seq<string>)
    ensures |ns| == 7 && ns == DeviWords[1..]
  {
    DeviWords[1..]
  }

  /** A column name without whitespace or `#`. */
  predicate ColumnName(t: string) {
    t != [] && NoSpace(t) && '#' !in t
  }

  lemma DeviNamesAreColumns()
    ensures forall i :: 0 <= i < |DeviNames()| ==> ColumnName(DeviNames()[i])
    ensures PatternWords(DeviWords)
  {
    EnergyNamesAreColumns();
    ForceNamesAreColumns();
    DeviWordsArePattern();
  }

  lemma EnergyNamesAreColumns()
    ensures ColumnName(DeviWords[1]) && ColumnName(DeviWords[2])
    ensures ColumnName(DeviWords[3]) && ColumnName(DeviWords[4])
  {
  }

  lemma ForceNamesAreColumns()
    ensures ColumnName(DeviWords[5]) && ColumnName(DeviWords[6]) && ColumnName(DeviWords[7])
  {
  }

  /** Every word of the pattern starts with a non-space character. */
  lemma DeviWordsArePattern()
    ensures PatternWords(DeviWords)
  {
    assert DeviWords[0][0] == '#' && DeviWords[1][0] == 's';
    assert DeviWords[2][0] == 'm' && DeviWords[3][0] == 'm' && DeviWords[4][0] == 'a';
    assert DeviWords[5][0] == 'm' && DeviWords[6][0] == 'm' && DeviWords[7][0] == 'a';
  }

  /** The header line DeePMD-kit writes, `#` and the column names separated by
      single spaces, ending in whitespace `w`. */
  function DeviLine(extra: seq<string>, w: string): string {
    Join(DeviWords + extra, " ") + w
  }

  /** The header line starts with the pattern, whatever extra columns follow. */
  lemma DeviLineDetected(extra: seq<string>, w: string)
    requires forall i :: 0 <= i < |extra| ==> ColumnName(extra[i])
    ensures Plugin.Matches(Plugin.DeviHeader, DeviLine(extra, w))
  {
    DeviWordsArePattern();
    var r := JoinExtended(DeviWords, extra, w);
    JoinedPrefixMatches(DeviWords, r, true);
  }

  /** The column names of the header line, in order. */
  function DeviColumns(extra: seq<string>): seq<string> {
    DeviNames() + extra
  }

  lemma DeviColumnsAreNames(extra: seq<string>)
    requires forall i :: 0 <= i < |extra| ==> ColumnName(extra[i])
    ensures forall i :: 0 <= i < |DeviColumns(extra)| ==> ColumnName(DeviColumns(extra)[i])
    ensures DeviLine(extra, "") == "# " + Join(DeviColumns(extra), " ")
  {
    var names := DeviColumns(extra);
    DeviNamesAreColumns();
    forall i | 0 <= i < |names|
      ensures ColumnName(names[i])
    {
      if i >= 7 {
        assert names[i] == extra[i - 7];
      }
    }
    assert DeviWords + extra == ["#"] + names;
  }

  /** Removing `#\s*` takes off the leading `# ` and leaves the rest alone. */
  lemma DeviLineStripped(extra: seq<string>, w: string)
    requires forall i :: 0 <= i < |extra| ==> ColumnName(extra[i])
    requires AllSpace(w)
    ensures SubWords(HashWords, DeviLine(extra, w), 0) == Join(DeviColumns(extra), " ") + w
  {
    var names := DeviColumns(extra);
    var body := Join(names, " ");
    DeviColumnsAreNames(extra);
    var joined := Join(DeviWords + extra, " ");
    assert joined + "" == joined;
    assert DeviLine(extra, w) == "# " + (body + w);
    JoinFirst(names, " ");
    JoinAvoids(names, " ", '#');
    NoHashInSpace(w);
    HashPrefixRemoved(body + w);
  }

  /** Removing `#\s*` from `# ` and a text that starts with a non-space character
      and holds no `#` leaves that text. */
  lemma HashPrefixRemoved(t: string)
    requires t != [] && !IsSpace(t[0]) && '#' !in t
    ensures SubWords(HashWords, "# " + t, 0) == t
  {
    var line := "# " + t;
    assert PatternWords(HashWords) && Join(HashWords, " ") == "#";
    assert OccursAt(line, "#", 0);
    WordsMatchJoinAlone(HashWords, line, 0, false);
    assert line[2] == t[0] && line[1..2] == " ";
    SkipSpaceOver(line, 1, " ");
    assert line[2..] == t;
    HashFreeFrom(line, 2);
  }

  /** The header line is accepted, and extraction gives the seven names followed by
      whatever extra columns the line has: the match is a prefix match. */
  lemma DeviRoundTrip(extra: seq<string>, w: string, rest: seq<string>)
    requires forall i :: 0 <= i < |extra| ==> ColumnName(extra[i])
    requires AllSpace(w)
    ensures ExtractHeader([DeviLine(extra, w)] + rest) == Ok(DeviNames() + extra)
  {
    var line := DeviLine(extra, w);
    assert LineAt([line] + rest, 0) == line;
    DeviLineDetected(extra, w);
    DeviLineStripped(extra, w);
    DeviColumnsAreNames(extra);
    SplitJoin(DeviColumns(extra), w);
  }

  /** Whitespace holds no `#`. */
  lemma NoHashInSpace(w: string)
    requires AllSpace(w)
    ensures '#' !in w
  {
    assert forall k :: 0 <= k < |w| ==> IsSpace(w[k]);
  }

  /** Removing `#\s*` leaves alone a tail without `#`. */
  lemma HashFreeFrom(line: string, i: nat)
    requires i <= |line| && '#' !in line[i..]
    ensures SubWords(HashWords, line, i) == line[i..]
  {
    SubWordsNoStart(HashWords, line, i);
  }

  /** Only the first line is read: what follows it never matters. */
  lemma FirstLineOnly(line: string, rest: seq<string>, other: seq<string>)
    ensures ExtractHeader([line] + rest) == ExtractHeader([line] + other)
  {
    assert LineAt([line] + rest, 0) == line == LineAt([line] + other, 0);
  }
}
