/** `PlumedMetaDParser.extract_header` of the older
    `simulation_visualizer/parsers/plumed_colvar.py`: the same first-line rule as
    `PlumedColvar`, returning the bare list of names. */
module LegacyPlumed {
  import opened Text
  import opened Errors
  import opened Patterns
  import opened Files
  import Plugin
  import PlumedColvar

  /** `extract_header(path, host)`: one `readline`, then the names after the
      marker, or `ValueError` when the line does not start with the marker. */
  function ExtractHeader(lines: seq<string>): (r: Result<seq<string>>)
    ensures r.Ok? <==> Plugin.Matches(Plugin.FieldsHeader, LineAt(lines, 0))
    ensures r.Err? ==> r.error == ValueError(PlumedColvar.MsgUnsupported)
    ensures r.Ok? ==> AreTokens(r.value)
  {
    var line := LineAt(lines, 0);
    if Plugin.Matches(Plugin.FieldsHeader, line) then Ok(PlumedColvar.FieldNames(line))
    else Err(ValueError(PlumedColvar.MsgUnsupported))
  }

  /** The legacy parser accepts the same files as the newer one and names the same
      columns; the newer one adds the axis suggestion. */
  lemma AgreesWithNewParser(lines: seq<string>)
    ensures ExtractHeader(lines).Ok? == PlumedColvar.ExtractHeader(lines).Ok?
    ensures ExtractHeader(lines).Ok? ==> ExtractHeader(lines).value == PlumedColvar.ExtractHeader(lines).value.columns
    ensures ExtractHeader(lines).Err? ==> ExtractHeader(lines).error == PlumedColvar.ExtractHeader(lines).error
  {
  }

  /** Writing a FIELDS line and extracting it gives the names back. */
  lemma FieldsRoundTrip(names: seq<string>, w: string, rest: seq<string>)
    requires names != [] && forall i :: 0 <= i < |names| ==> PlumedColvar.FieldName(names[i])
    requires AllSpace(w)
    ensures ExtractHeader([PlumedColvar.FieldsLine(names, w)] + rest) == Ok(names)
  {
    PlumedColvar.FieldsRoundTrip(names, w, rest);
    AgreesWithNewParser([PlumedColvar.FieldsLine(names, w)] + rest);
  }

  /** Only the first line is read: what follows it never matters. */
  lemma FirstLineOnly(line: string, rest: seq<string>, other: seq<string>)
    ensures ExtractHeader([line] + rest) == ExtractHeader([line] + other)
  {
    assert LineAt([line] + rest, 0) == line == LineAt([line] + other, 0);
  }
}
