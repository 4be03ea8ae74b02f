/** `DeepMDTrainParser.extract_header` of `simulation_visualizer/parsers/dpmd_lcurve.py`:
    the header of a DeePMD-kit learning-curve file, read from its first line. */
module DeepmdLcurve {
  import opened Text
  import opened Errors
  import opened Patterns
  import opened Files
  import Plugin

  const MsgUnsupported := "Unsupported header format"

  /** `extract_header(path, host)`: one `readline`; if the header pattern matches at
      its start, the raw whitespace tokens of that line, otherwise `ValueError`. */
  function ExtractHeader(lines: seq<string>): (r: Result<seq<string>>)
    ensures r.Ok? <==> Plugin.Matches(Plugin.LcurveHeader, LineAt(lines, 0))
    ensures r.Err? ==> r.error == ValueError(MsgUnsupported)
    ensures r.Ok? ==> AreTokens(r.value)
  {
    var line := LineAt(lines, 0);
    if Plugin.Matches(Plugin.LcurveHeader, line) then Ok(Split(line))
    else Err(ValueError(MsgUnsupported))
  }

  /** A match of the header pattern starts with its first literal, `#`. */
  lemma MatchStartsWithHash(ws: seq<string>, line: string)
    requires ws != [] && ws[0] == "#"
    requires MatchesAtStart(ws, line, true)
    ensures line != [] && line[0] == '#'
  {
    WordsMatchFirst(ws, line, 0, true);
    HashLiteral(line, ws[0]);
  }

  /** `#` has no other case: a case-insensitive `#` is a `#`. */
  lemma HashLiteral(line: string, h: string)
    requires h == "#"
    requires LiteralAt(line, 0, h, true)
    ensures line[0] == '#'
  {
    assert Lower(line[0 + 0]) == Lower(h[0]);
  }

  /** An accepted line is split on whitespace, whatever lines follow it. */
  lemma Accepted(line: string, rest: seq<string>)
    requires Plugin.Matches(Plugin.LcurveHeader, line)
    ensures ExtractHeader([line] + rest) == Ok(Split(line))
  {
    assert LineAt([line] + rest, 0) == line;
  }

  /** A line starting `#` and a space splits with `#` as its first token. */
  lemma HashFirstToken(line: string)
    requires |line| > 1 && line[0] == '#' && IsSpace(line[1])
    ensures Split(line) != [] && Split(line)[0] == "#"
  {
    assert line == "#" + line[1..];
    SplitToken("#", line[1..]);
  }

  /** An accepted line starts with `#` (a literal without another case); when a
      space follows it, `#` is the first column name. */
  lemma HashKeptAsToken(line: string, rest: seq<string>)
    requires Plugin.Matches(Plugin.LcurveHeader, line)
    requires |line| > 1 && IsSpace(line[1])
    ensures var r := ExtractHeader([line] + rest); r.Ok? && r.value != [] && r.value[0] == "#"
  {
    Accepted(line, rest);
    assert LcurveWords[0] == "#";
    MatchStartsWithHash(LcurveWords, line);
    HashFirstToken(line);
  }

  /** The pattern's words before the double-spaced literal. */
  const Head: seq<string> := ["#", "batch", "l2_tst", "l2_trn", "l2_e_tst", "l2_e_trn"]

  /** The pattern's words after it. */
  const Tail: seq<string> := ["l2_v_tst", "l2_v_trn", "lr"]

  const ForceTest := "l2_f_tst"
  const ForceTrain := "l2_f_trn"

  /** The literal word of the pattern holding two spaces. */
  lemma DoubleSpaced()
    ensures ForceTest + "  " + ForceTrain == "l2_f_tst  l2_f_trn"
  {
    var m, n := ForceTest + "  " + ForceTrain, "l2_f_tst  l2_f_trn";
    assert |m| == |n|;
    forall k | 0 <= k < |m|
      ensures m[k] == n[k]
    {
    }
  }

  /** The pattern's words around the double-spaced literal. */
  lemma LcurveWordsShape()
    ensures LcurveWords == Head + [ForceTest + "  " + ForceTrain] + Tail
  {
    DoubleSpaced();
  }

  /** Every word of the pattern starts with a non-space character. */
  lemma LcurveWordsArePattern()
    ensures PatternWords(LcurveWords) && PatternWords(Head)
  {
    var ws := LcurveWords;
    forall k | 0 <= k < |ws|
      ensures ws[k] != [] && !IsSpace(ws[k][0])
    {
      if k == 0 {
        assert ws[k][0] == '#';
      } else if k == 1 {
        assert ws[k][0] == 'b';
      } else {
        assert ws[k][0] == 'l';
      }
    }
    assert Head == ws[..6];
  }

  /** The names on either side of the double space are tokens. */
  lemma HalvesAreTokens()
    ensures AreTokens(Head + [ForceTest]) && AreTokens([ForceTrain] + Tail)
  {
    HeadAreTokens();
    TailAreTokens();
    ForceAreTokens();
    AreTokensAppend(Head, [ForceTest]);
    AreTokensAppend([ForceTrain], Tail);
  }

  lemma HeadAreTokens()
    ensures AreTokens(Head)
  {
    assert NoSpace(Head[0]) && NoSpace(Head[1]) && NoSpace(Head[2]);
    assert NoSpace(Head[3]) && NoSpace(Head[4]) && NoSpace(Head[5]);
  }

  lemma TailAreTokens()
    ensures AreTokens(Tail)
  {
    assert NoSpace(Tail[0]) && NoSpace(Tail[1]) && NoSpace(Tail[2]);
  }

  lemma ForceAreTokens()
    ensures AreTokens([ForceTest]) && AreTokens([ForceTrain])
  {
    assert NoSpace(ForceTest) && NoSpace(ForceTrain);
  }

  /** The eleven column names of a learning-curve file, `#` first. */
  function LcurveNames(): seq<string> {
    Head + [ForceTest, ForceTrain] + Tail
  }

  /** Joining words one of which holds a double space: the double space sits
      between the two halves. */
  lemma JoinDoubleSpaced(h: seq<string>, a: string, b: string, t: seq<string>)
    requires h != [] && t != []
    ensures Join(h + [a + "  " + b] + t, " ") == Join(h + [a], " ") + "  " + Join([b] + t, " ")
  {
    var m := a + "  " + b;
    JoinAppend(h + [m], t, " ");
    JoinAppend(h, [m], " ");
    JoinAppend(h, [a], " ");
    JoinAppend([b], t, " ");
    assert Join([m], " ") == m && Join([a], " ") == a && Join([b], " ") == b;
  }

  /** The same words with every separator a single space. */
  lemma JoinSingleSpaced(h: seq<string>, a: string, b: string, t: seq<string>)
    requires h != [] && t != []
    ensures Join(h + [a, b] + t, " ") == Join(h, " ") + (" " + (a + " " + b) + " " + Join(t, " "))
  {
    assert h + [a, b] + t == h + ([a] + ([b] + t));
    JoinAppend(h, [a] + ([b] + t), " ");
    JoinAppend([a], [b] + t, " ");
    JoinAppend([b], t, " ");
    assert Join([a], " ") == a && Join([b], " ") == b;
  }

  /** A header written with the pattern's own spacing is accepted. */
  lemma DoubleSpacedMatches(h: seq<string>, a: string, b: string, t: seq<string>, w: string)
    requires h != [] && t != []
    requires PatternWords(h + [a + "  " + b] + t)
    ensures MatchesAtStart(h + [a + "  " + b] + t, Join(h + [a + "  " + b] + t, " ") + w, true)
  {
    var ws := h + [a + "  " + b] + t;
    var line := Join(ws, " ") + w;
    assert OccursAt(line, Join(ws, " "), 0);
    assert ws + [] == ws;
    WordsMatchJoin(ws, [], line, 0, true);
  }

  /** ... and splits into the names on either side of the double space. */
  lemma DoubleSpacedSplit(h: seq<string>, a: string, b: string, t: seq<string>, w: string)
    requires h != [] && t != [] && AllSpace(w)
    requires AreTokens(h + [a]) && AreTokens([b] + t)
    ensures Split(Join(h + [a + "  " + b] + t, " ") + w) == h + [a, b] + t
  {
    JoinDoubleSpaced(h, a, b, t);
    assert AllSpace("  ") by {
      assert IsSpace("  "[0]) && IsSpace("  "[1]);
    }
    var line := Join(h + [a + "  " + b] + t, " ") + w;
    assert line == Join(h + [a], " ") + "  " + (Join([b] + t, " ") + w);
    SplitConcat(h + [a], "  ", Join([b] + t, " ") + w);
    SplitJoin([b] + t, w);
    assert (h + [a]) + ([b] + t) == h + [a, b] + t;
  }

  /** Only a space folds to a space. */
  lemma LowerSpace(c: char)
    requires Lower(c) == ' '
    ensures c == ' '
  {
  }

  /** The characters of `" " + (a + " " + b) + tail` that decide the mismatch. */
  lemma SingleSpacedChars(a: string, b: string, tail: string)
    requires a != [] && b != []
    ensures var r := " " + (a + " " + b) + tail;
      |r| > |a| + 2 && r[0] == ' ' && r[1] == a[0] && r[|a| + 2] == b[0]
  {
    var r := " " + (a + " " + b) + tail;
    assert r[1..][|a| + 1] == (a + " " + b)[|a| + 1];
  }

  /** Where a single space and then `a b` follow position `p`, the whitespace run
      is that one space, and the double-spaced literal `a  b` does not match after
      it. */
  lemma MismatchAfter(line: string, p: nat, a: string, b: string)
    requires a != [] && !IsSpace(a[0]) && b != [] && b[0] != ' '
    requires p + |a| + 2 < |line|
    requires line[p] == ' ' && line[p + 1] == a[0] && line[p + |a| + 2] == b[0]
    ensures SkipSpace(line, p) == p + 1
    ensures !LiteralAt(line, p + 1, a + "  " + b, true)
  {
    var m, k := a + "  " + b, |a| + 1;
    assert line[p..p + 1] == " ";
    SkipSpaceOver(line, p, " ");
    assert m[k] == ' ';
    if Lower(line[p + 1 + k]) == Lower(m[k]) {
      LowerSpace(line[p + 1 + k]);
    }
  }

  /** The characters of `prefix + r` from `|prefix|` on are those of `r`. */
  lemma AfterPrefix(prefix: string, r: string, j: nat)
    requires j < |r|
    ensures (prefix + r)[|prefix| + j] == r[j]
  {
  }

  /** A literal that does not match where matching has reached ends the match. */
  lemma FirstWordFails(m: string, t: seq<string>, s: string, i: nat)
    requires i <= |s| && !LiteralAt(s, i, m, true)
    ensures WordsMatch([m] + t, s, i, true).None?
  {
    assert ([m] + t)[0] == m;
  }

  /** Where a single space and then `a b` follow a prefix, the whitespace run after
      the prefix is that space and `a  b` does not match after it. */
  lemma MismatchOnLine(prefix: string, a: string, b: string, tail: string)
    requires a != [] && !IsSpace(a[0]) && b != [] && b[0] != ' '
    ensures var line := prefix + (" " + (a + " " + b) + tail);
      && SkipSpace(line, |prefix|) == |prefix| + 1
      && !LiteralAt(line, |prefix| + 1, a + "  " + b, true)
  {
    var r := " " + (a + " " + b) + tail;
    SingleSpacedChars(a, b, tail);
    AfterPrefix(prefix, r, 0);
    AfterPrefix(prefix, r, 1);
    AfterPrefix(prefix, r, |a| + 2);
    MismatchAfter(prefix + r, |prefix|, a, b);
  }

  /** Words joined with single spaces at the start of a line match there. */
  lemma PrefixWordsMatch(h: seq<string>, more: seq<string>, r: string)
    requires h != [] && PatternWords(h)
    ensures var line := Join(h, " ") + r;
      WordsMatch(h + more, line, 0, true) == WordsMatch(more, line, SkipSpace(line, |Join(h, " ")|), true)
  {
    var line := Join(h, " ") + r;
    assert OccursAt(line, Join(h, " "), 0);
    WordsMatchJoin(h, more, line, 0, true);
  }

  /** The single-spaced header is the joined head, one space, `a b`, and the rest. */
  lemma SingleSpacedLine(h: seq<string>, a: string, b: string, t: seq<string>, w: string)
    requires h != [] && t != []
    ensures Join(h + [a, b] + t, " ") + w == Join(h, " ") + (" " + (a + " " + b) + (" " + Join(t, " ") + w))
  {
    JoinSingleSpaced(h, a, b, t);
  }

  /** The same header with a single space where the pattern has two is rejected:
      the pattern's second space meets the first letter of `b`. */
  lemma SingleSpacedMismatch(h: seq<string>, a: string, b: string, t: seq<string>, w: string)
    requires h != [] && t != []
    requires PatternWords(h) && a != [] && !IsSpace(a[0]) && b != [] && b[0] != ' '
    ensures !MatchesAtStart(h + [a + "  " + b] + t, Join(h + [a, b] + t, " ") + w, true)
  {
    var m := a + "  " + b;
    var prefix := Join(h, " ");
    var tail := " " + Join(t, " ") + w;
    var r := " " + (a + " " + b) + tail;
    SingleSpacedLine(h, a, b, t, w);
    PrefixWordsMatch(h, [m] + t, r);
    MismatchOnLine(prefix, a, b, tail);
    FirstWordFails(m, t, prefix + r, |prefix| + 1);
    assert h + [m] + t == h + ([m] + t);
  }

  /** The header DeePMD-kit writes is accepted, and its names come back as eleven
      tokens, `#` first and the double space collapsed. */
  lemma LcurveRoundTrip(w: string, rest: seq<string>)
    requires AllSpace(w)
    ensures ExtractHeader([Join(LcurveWords, " ") + w] + rest) == Ok(LcurveNames())
  {
    LcurveWordsShape();
    LcurveWordsArePattern();
    HalvesAreTokens();
    DoubleSpacedMatches(Head, ForceTest, ForceTrain, Tail, w);
    DoubleSpacedSplit(Head, ForceTest, ForceTrain, Tail, w);
    Accepted(Join(LcurveWords, " ") + w, rest);
  }

  /** The same names separated by single spaces only: rejected. */
  lemma SingleSpacedRejected(w: string, rest: seq<string>)
    ensures ExtractHeader([Join(LcurveNames(), " ") + w] + rest) == Err(ValueError(MsgUnsupported))
  {
    var line := Join(LcurveNames(), " ") + w;
    assert LineAt([line] + rest, 0) == line;
    SingleSpacedNoMatch(w);
  }

  /** The single-spaced names do not match the header pattern. */
  lemma SingleSpacedNoMatch(w: string)
    ensures !Plugin.Matches(Plugin.LcurveHeader, Join(LcurveNames(), " ") + w)
  {
    LcurveWordsShape();
    HeadIsPattern();
    ForceNamesStart();
    SingleSpacedMismatch(Head, ForceTest, ForceTrain, Tail, w);
  }

  /** The words before the double-spaced literal start with non-space characters. */
  lemma HeadIsPattern()
    ensures PatternWords(Head)
  {
    assert Head[0][0] == '#' && Head[1][0] == 'b';
    assert Head[2][0] == 'l' && Head[3][0] == 'l' && Head[4][0] == 'l' && Head[5][0] == 'l';
  }

  /** The two force names start with a letter. */
  lemma ForceNamesStart()
    ensures ForceTest != [] && !IsSpace(ForceTest[0]) && ForceTrain != [] && ForceTrain[0] != ' '
  {
    assert ForceTest[0] == 'l' && ForceTrain[0] == 'l';
  }

  /** Only the first line is read: what follows it never matters. */
  lemma FirstLineOnly(line: string, rest: seq<string>, other: seq<string>)
    ensures ExtractHeader([line] + rest) == ExtractHeader([line] + other)
  {
    assert LineAt([line] + rest, 0) == line == LineAt([line] + other, 0);
  }
}
