/** The regular expressions the parsers use, written out as matchers.

    All but one have the shape `w0\s*w1\s*...wn\s*`: literal words separated by
    optional whitespace. Every word starts with a non-space character, so the
    greedy `\s*` never has to give characters back and matching reduces to
    "literal, then skip the whole whitespace run". `re.match` anchors at the
    start of the line; `re.sub` replaces every non-overlapping match scanning
    left to right. */
module Patterns {
  import opened Text
  import opened Errors

  /** The literal `w` occurs at index `i` of `s`; with `ci` (the `re.I` flag) letters
      are compared after ASCII lower-casing. */
  predicate LiteralAt(s: string, i: nat, w: string, ci: bool) {
    && i + |w| <= |s|
    && forall k :: 0 <= k < |w| ==>
         if ci then Lower(s[i + k]) == Lower(w[k]) else s[i + k] == w[k]
  }

  /** Matching `words[0]\s*words[1]\s*...\s*` at index `i`: the end of the match. */
  function WordsMatch(words: seq<string>, s: string, i: nat, ci: bool): (r: Option<nat>)
    requires i <= |s|
    ensures r.Some? ==> i <= r.value <= |s|
    ensures r.Some? && words != [] ==> i + |words[0]| <= r.value
    decreases |words|
  {
    if words == [] then Some(i)
    else if LiteralAt(s, i, words[0], ci) then
      WordsMatch(words[1..], s, SkipSpace(s, i + |words[0]|), ci)
    else None
  }

  /** `re.match(pattern, s)` is truthy. */
  predicate MatchesAtStart(words: seq<string>, s: string, ci: bool) {
    WordsMatch(words, s, 0, ci).Some?
  }

  /** `re.sub(pattern, "", s[i..])` for a case-sensitive words pattern. */
  function SubWords(words: seq<string>, s: string, i: nat): (r: string)
    requires words != [] && words[0] != []
    requires i <= |s|
    ensures |r| <= |s| - i
    decreases |s| - i
  {
    if i == |s| then ""
    else match WordsMatch(words, s, i, false)
      case Some(j) => SubWords(words, s, j)
      case None => [s[i]] + SubWords(words, s, i + 1)
  }

  // ---------------------------------------------------------------------------
  // The concrete patterns

  /** `#!\s*FIELDS\s*`: the PLUMED COLVAR header marker. */
  const FieldsWords: seq<string> := ["#!", "FIELDS"]

  /** `thermo_style\s*custom\s*`: the LAMMPS thermo output declaration. */
  const ThermoWords: seq<string> := ["thermo_style", "custom"]

  /** `#\s*`: a comment hash with the whitespace after it. */
  const HashWords: seq<string> := ["#"]

  /** `#\s*step\s*max_devi_e\s*...\s*avg_devi_f`: the DeePMD model-deviation header. */
  const DeviWords: seq<string> :=
    ["#", "step", "max_devi_e", "min_devi_e", "avg_devi_e", "max_devi_f", "min_devi_f", "avg_devi_f"]

  /** `#\s*batch\s*l2_tst\s*...\s*lr`: the DeePMD lcurve header; two literal spaces
      separate `l2_f_tst` from `l2_f_trn`. */
  const LcurveWords: seq<string> :=
    ["#", "batch", "l2_tst", "l2_trn", "l2_e_tst", "l2_e_trn", "l2_f_tst  l2_f_trn",
     "l2_v_tst", "l2_v_trn", "lr"]

  /** `re.match(r"\s*run\s+\d+", s, re.I)`: a LAMMPS `run N` command. */
  predicate RunLine(s: string)
    ensures RunLine(s) ==> |s| >= 5 && exists k :: 3 < k < |s| && IsDigit(s[k])
  {
    var i := SkipSpace(s, 0);
    && LiteralAt(s, i, "run", true)
    && i + 3 < |s| && IsSpace(s[i + 3])
    && var j := SkipSpace(s, i + 3);
       j < |s| && IsDigit(s[j])
  }

  /** The part `\S*\s*\S*\s*\S*\)` of the LAMMPS banner from index `i`, with the
      first `st` of its five segments already passed (even segments are `\S*`,
      odd ones `\s*`). Any segment may be empty, so `)` may end the match from any
      state; `)` is also a non-space character a `\S*` may consume. */
  predicate BannerTail(s: string, i: nat, st: nat)
    requires i <= |s| && st <= 4
    ensures BannerTail(s, i, st) ==> ')' in s[i..]
    decreases |s| - i, 4 - st
  {
    || (i < |s| && s[i] == ')')
    || (i < |s| && (if st % 2 == 0 then !IsSpace(s[i]) else IsSpace(s[i])) && BannerTail(s, i + 1, st))
    || (st < 4 && BannerTail(s, i, st + 1))
  }

  /** `re.match(r"LAMMPS\s*\(\S*\s*\S*\s*\S*\)", s)`: the LAMMPS version banner. */
  predicate Banner(s: string)
    ensures Banner(s) ==> |s| >= 8 && ')' in s[7..]
  {
    && LiteralAt(s, 0, "LAMMPS", false)
    && var i := SkipSpace(s, 6);
       i < |s| && s[i] == '(' && BannerTail(s, i + 1, 0)
  }

  // ---------------------------------------------------------------------------
  // Properties

  /** Matching case-insensitively accepts whatever the case-sensitive match accepts. */
  lemma {:induction false} SensitiveImpliesInsensitive(words: seq<string>, s: string, i: nat)
    requires i <= |s|
    requires WordsMatch(words, s, i, false).Some?
    ensures WordsMatch(words, s, i, true) == WordsMatch(words, s, i, false)
    decreases |words|
  {
    if words != [] {
      SensitiveImpliesInsensitive(words[1..], s, SkipSpace(s, i + |words[0]|));
    }
  }

  /** `re.sub` leaves the text alone from `i` on when the pattern's first character
      does not occur there. */
  lemma {:induction false} SubWordsNoStart(words: seq<string>, s: string, i: nat)
    requires words != [] && words[0] != []
    requires i <= |s|
    requires words[0][0] !in s[i..]
    ensures SubWords(words, s, i) == s[i..]
    decreases |s| - i
  {
    if i < |s| {
      assert s[i] == s[i..][0];
      assert s[i + 0] != words[0][0];
      assert !LiteralAt(s, i, words[0], false);
      assert s[i + 1..] == s[i..][1..];
      SubWordsNoStart(words, s, i + 1);
      assert s[i..] == [s[i]] + s[i + 1..];
    }
  }

  /** Skipping whitespace from the end of a literal that is followed by `w` and then
      a non-space character (or the end) lands on that character. */
  lemma SkipSpaceOver(s: string, i: nat, w: string)
    requires AllSpace(w)
    requires i + |w| <= |s| && s[i..i + |w|] == w
    requires i + |w| < |s| ==> !IsSpace(s[i + |w|])
    ensures SkipSpace(s, i) == i + |w|
    decreases |s| - i
  {
    if |w| > 0 {
      assert s[i] == w[0];
      assert s[i + 1..i + |w|] == w[1..];
      SkipSpaceOver(s, i + 1, w[1..]);
    }
  }

  /** A match begins with the pattern's first literal. */
  lemma WordsMatchFirst(words: seq<string>, s: string, i: nat, ci: bool)
    requires i <= |s| && words != [] && WordsMatch(words, s, i, ci).Some?
    ensures LiteralAt(s, i, words[0], ci)
  {
  }

  /** A case-sensitive literal match is an occurrence. */
  lemma LiteralIsOccurrence(s: string, i: nat, w: string)
    ensures LiteralAt(s, i, w, false) ==> OccursAt(s, w, i)
  {
    if LiteralAt(s, i, w, false) {
      assert forall k :: 0 <= k < |w| ==> s[i..i + |w|][k] == w[k];
    }
  }

  /** A literal match at `i` is an occurrence in the suffix from `i`. */
  lemma LiteralInSuffix(s: string, i: nat, w: string)
    requires i <= |s|
    ensures LiteralAt(s, i, w, false) ==> Contains(s[i..], w)
  {
    if LiteralAt(s, i, w, false) {
      LiteralIsOccurrence(s, i, w);
      assert s[i..][0..|w|] == s[i..i + |w|];
      assert OccursAt(s[i..], w, 0);
    }
  }

  /** An occurrence in the tail of a string is an occurrence in the string. */
  lemma ContainsTail(t: string, w: string)
    requires t != []
    ensures Contains(t[1..], w) ==> Contains(t, w)
  {
    if Contains(t[1..], w) {
      var q :| 0 <= q <= |t[1..]| - |w| && OccursAt(t[1..], w, q);
      assert t[q + 1..q + 1 + |w|] == t[1..][q..q + |w|];
      assert OccursAt(t, w, q + 1);
    }
  }

  /** Where the pattern's first word never occurs, `re.sub` changes nothing. */
  lemma {:induction false} SubWordsNoOccurrence(words: seq<string>, s: string, i: nat)
    requires words != [] && words[0] != [] && i <= |s|
    requires !Contains(s[i..], words[0])
    ensures SubWords(words, s, i) == s[i..]
    decreases |s| - i
  {
    if i < |s| {
      LiteralInSuffix(s, i, words[0]);
      assert WordsMatch(words, s, i, false).None?;
      ContainsTail(s[i..], words[0]);
      assert s[i..][1..] == s[i + 1..];
      SubWordsNoOccurrence(words, s, i + 1);
      assert s[i..] == [s[i]] + s[i + 1..];
    }
  }

  /** Words that start with a non-space character, as a pattern's words do. */
  predicate PatternWords(ws: seq<string>) {
    forall k :: 0 <= k < |ws| ==> ws[k] != [] && !IsSpace(ws[k][0])
  }

  /** An occurrence of `w` is a literal match, with or without `re.I`. */
  lemma LiteralFromOccurs(s: string, w: string, i: nat, ci: bool)
    requires OccursAt(s, w, i)
    ensures LiteralAt(s, i, w, ci)
  {
    forall k | 0 <= k < |w|
      ensures s[i + k] == w[k]
    {
      assert s[i..i + |w|][k] == s[i + k];
    }
  }

  /** An occurrence of `a + b` is an occurrence of `a` followed by one of `b`. */
  lemma OccursSplit(s: string, a: string, b: string, i: nat)
    requires OccursAt(s, a + b, i)
    ensures OccursAt(s, a, i) && OccursAt(s, b, i + |a|)
  {
    assert s[i..i + |a|] == s[i..i + |a + b|][..|a|];
    assert s[i + |a|..i + |a| + |b|] == s[i..i + |a + b|][|a|..];
  }

  /** A join of words starts with the first word's first character. */
  lemma JoinFirst(xs: seq<string>, sep: string)
    requires xs != [] && xs[0] != []
    ensures Join(xs, sep) != [] && Join(xs, sep)[0] == xs[0][0]
  {
    if |xs| > 1 {
      assert Join(xs, sep) == xs[0] + (sep + Join(xs[1..], sep));
    }
  }

  /** One step of matching: a literal word, then the whitespace after it. */
  lemma WordsMatchStep(w: string, rest: seq<string>, s: string, i: nat, ci: bool)
    requires i <= |s| && LiteralAt(s, i, w, ci)
    ensures WordsMatch([w] + rest, s, i, ci) == WordsMatch(rest, s, SkipSpace(s, i + |w|), ci)
  {
    assert ([w] + rest)[0] == w && ([w] + rest)[1..] == rest;
  }

  /** Length of the words joined with single spaces. */
  function JoinedLen(ws: seq<string>): (n: nat)
    ensures ws != [] ==> |ws[0]| <= n
    decreases |ws|
  {
    if ws == [] then 0 else if |ws| == 1 then |ws[0]| else |ws[0]| + 1 + JoinedLen(ws[1..])
  }

  /** The words are written out at `i`, each followed by one space except the last. */
  predicate JoinedAt(s: string, ws: seq<string>, i: nat)
    decreases |ws|
  {
    && ws != []
    && LiteralAt(s, i, ws[0], false)
    && (|ws| > 1 ==>
          && i + |ws[0]| < |s| && s[i + |ws[0]|] == ' '
          && JoinedAt(s, ws[1..], i + |ws[0]| + 1))
  }

  /** An occurrence of the joined words is the words written out one by one. */
  lemma {:induction false} JoinedFromOccurs(ws: seq<string>, s: string, i: nat)
    requires ws != [] && OccursAt(s, Join(ws, " "), i)
    ensures JoinedAt(s, ws, i) && JoinedLen(ws) == |Join(ws, " ")|
    decreases |ws|
  {
    if |ws| > 1 {
      var w, tail := ws[0], Join(ws[1..], " ");
      assert Join(ws, " ") == (w + " ") + tail;
      OccursSplit(s, w + " ", tail, i);
      OccursSplit(s, w, " ", i);
      assert s[i + |w|] == (w + " ")[|w|];
      JoinedFromOccurs(ws[1..], s, i + |w| + 1);
    }
    LiteralFromOccurs(s, ws[0], i, false);
  }

  /** An exact literal match is also a match under `re.I`. */
  lemma LiteralAnyCase(s: string, i: nat, w: string, ci: bool)
    requires LiteralAt(s, i, w, false)
    ensures LiteralAt(s, i, w, ci)
  {
  }

  /** Matching a concatenation of patterns: the first part, then the second from
      where the first ended. */
  lemma {:induction false} WordsMatchAppend(ws: seq<string>, more: seq<string>, s: string, i: nat, ci: bool)
    requires i <= |s|
    ensures WordsMatch(ws + more, s, i, ci)
         == (var r := WordsMatch(ws, s, i, ci); if r.None? then None else WordsMatch(more, s, r.value, ci))
    decreases |ws|
  {
    if ws == [] {
      assert ws + more == more;
    } else {
      ConsSplit(ws, more);
      if LiteralAt(s, i, ws[0], ci) {
        WordsMatchAppend(ws[1..], more, s, SkipSpace(s, i + |ws[0]|), ci);
      }
    }
  }

  /** The first of several written-out words matches, with the one space after it;
      the rest are written out after that space. */
  lemma JoinedStep(ws: seq<string>, s: string, i: nat, ci: bool)
    requires |ws| > 1 && PatternWords(ws) && JoinedAt(s, ws, i)
    ensures PatternWords(ws[1..]) && JoinedAt(s, ws[1..], i + |ws[0]| + 1)
    ensures i + JoinedLen(ws) == (i + |ws[0]| + 1) + JoinedLen(ws[1..])
    ensures WordsMatch(ws, s, i, ci) == WordsMatch(ws[1..], s, i + |ws[0]| + 1, ci)
  {
    var w, rest := ws[0], ws[1..];
    var j := i + |w| + 1;
    LiteralAnyCase(s, i, w, ci);
    assert PatternWords(rest) by {
      assert forall k :: 0 <= k < |rest| ==> rest[k] == ws[k + 1];
    }
    assert s[j] == rest[0][0];
    SkipSpaceOver(s, i + |w|, " ");
  }

  /** A single written-out word matches, with the whitespace after it. */
  lemma JoinedOne(ws: seq<string>, s: string, i: nat, ci: bool)
    requires |ws| == 1 && JoinedAt(s, ws, i)
    ensures i + JoinedLen(ws) <= |s|
    ensures WordsMatch(ws, s, i, ci) == Some(SkipSpace(s, i + JoinedLen(ws)))
  {
    LiteralAnyCase(s, i, ws[0], ci);
    assert ws[1..] == [];
  }

  /** The written-out words match, up to the whitespace after the last of them. */
  lemma {:induction false} WordsMatchJoined(ws: seq<string>, s: string, i: nat, ci: bool)
    requires PatternWords(ws) && JoinedAt(s, ws, i)
    ensures i + JoinedLen(ws) <= |s|
    ensures WordsMatch(ws, s, i, ci) == Some(SkipSpace(s, i + JoinedLen(ws)))
    decreases |ws|
  {
    if |ws| == 1 {
      JoinedOne(ws, s, i, ci);
    } else {
      JoinedStep(ws, s, i, ci);
      WordsMatchJoined(ws[1..], s, i + |ws[0]| + 1, ci);
    }
  }

  /** A non-empty word list followed by more words is its head before the rest. */
  lemma ConsSplit(ws: seq<string>, more: seq<string>)
    requires ws != []
    ensures ws + more == [ws[0]] + (ws[1..] + more)
    ensures (ws + more)[0] == ws[0] && (ws + more)[1..] == ws[1..] + more
  {
    assert ws == [ws[0]] + ws[1..];
  }

  /** A line that starts with the words joined by single spaces matches them. */
  lemma JoinedPrefixMatches(ws: seq<string>, r: string, ci: bool)
    requires ws != [] && PatternWords(ws)
    ensures MatchesAtStart(ws, Join(ws, " ") + r, ci)
  {
    var line := Join(ws, " ") + r;
    assert OccursAt(line, Join(ws, " "), 0);
    WordsMatchJoinAlone(ws, line, 0, ci);
  }

  /** Where the words are written out at `i`, separated by single spaces, they
      match there, up to the whitespace that follows them. */
  lemma WordsMatchJoinAlone(ws: seq<string>, s: string, i: nat, ci: bool)
    requires ws != [] && PatternWords(ws)
    requires OccursAt(s, Join(ws, " "), i)
    ensures WordsMatch(ws, s, i, ci) == Some(SkipSpace(s, i + |Join(ws, " ")|))
  {
    JoinedFromOccurs(ws, s, i);
    WordsMatchJoined(ws, s, i, ci);
  }

  /** Where the words are written out at `i`, separated by single spaces, they
      match there, and matching goes on after the whitespace that follows them. */
  lemma WordsMatchJoin(ws: seq<string>, more: seq<string>, s: string, i: nat, ci: bool)
    requires ws != [] && PatternWords(ws)
    requires OccursAt(s, Join(ws, " "), i)
    ensures WordsMatch(ws + more, s, i, ci) == WordsMatch(more, s, SkipSpace(s, i + |Join(ws, " ")|), ci)
  {
    WordsMatchJoinAlone(ws, s, i, ci);
    WordsMatchAppend(ws, more, s, i, ci);
  }
}
