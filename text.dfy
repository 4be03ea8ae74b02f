/** Python string operations used throughout the engine, on `string` = `seq<char>`. */
module Text {

  /** The characters for which Python's `str.isspace()` holds: what `str.split()`
      splits on and what `\s` matches in a `str` pattern. */
  predicate IsSpace(c: char) {
    if c <= ' ' then
      c == ' ' || ('\t' <= c <= '\r') || ('\U{1c}' <= c <= '\U{1f}')
    else if c < '\U{85}' then false
    else
      || c == '\U{85}' || c == '\U{a0}' || c == '\U{1680}' || ('\U{2000}' <= c <= '\U{200a}')
      || c == '\U{2028}' || c == '\U{2029}' || c == '\U{202f}' || c == '\U{205f}' || c == '\U{3000}'
  }

  /** ASCII digits, what `\d` matches in the model. */
  predicate IsDigit(c: char) {
    '0' <= c <= '9'
  }

  /** ASCII lower-casing, the case folding the model uses for `re.I`. */
  function Lower(c: char): (r: char)
    ensures 'A' <= c <= 'Z' ==> 'a' <= r <= 'z'
    ensures !('A' <= c <= 'Z') ==> r == c
  {
    if 'A' <= c <= 'Z' then (c as int + 32) as char else c
  }

  /** `s.startswith(p)` */
  predicate StartsWith(s: string, p: string) {
    |p| <= |s| && s[..|p|] == p
  }

  /** `p` occurs in `s` starting at index `i`. */
  predicate OccursAt(s: string, p: string, i: nat) {
    i + |p| <= |s| && s[i..i + |p|] == p
  }

  /** `p in s` */
  predicate Contains(s: string, p: string) {
    exists i :: 0 <= i <= |s| - |p| && OccursAt(s, p, i)
  }

  /** Index of the end of the run of whitespace that starts at `i`. */
  function SkipSpace(s: string, i: nat): (j: nat)
    requires i <= |s|
    ensures i <= j <= |s|
    ensures forall k :: i <= k < j ==> IsSpace(s[k])
    ensures j < |s| ==> !IsSpace(s[j])
    decreases |s| - i
  {
    if i < |s| && IsSpace(s[i]) then SkipSpace(s, i + 1) else i
  }

  /** Length of the longest prefix of `s` that holds no whitespace. */
  function TokenLen(s: string): (n: nat)
    ensures n <= |s|
    ensures forall k :: 0 <= k < n ==> !IsSpace(s[k])
    ensures n < |s| ==> IsSpace(s[n])
  {
    if s == [] || IsSpace(s[0]) then 0 else 1 + TokenLen(s[1..])
  }

  predicate NoSpace(t: string) {
    forall k :: 0 <= k < |t| ==> !IsSpace(t[k])
  }

  /** A well-formed result of `str.split()`: non-empty tokens without whitespace. */
  predicate AreTokens(ts: seq<string>) {
    forall i :: 0 <= i < |ts| ==> ts[i] != [] && NoSpace(ts[i])
  }

  /** Tokens followed by tokens are tokens. */
  lemma AreTokensAppend(a: seq<string>, b: seq<string>)
    requires AreTokens(a) && AreTokens(b)
    ensures AreTokens(a + b)
  {
    assert forall i :: |a| <= i < |a + b| ==> (a + b)[i] == b[i - |a|];
  }

  /** `s.split()`: the maximal whitespace-free runs of `s`, in order. */
  function Split(s: string): (ts: seq<string>)
    ensures AreTokens(ts)
    decreases |s|
  {
    if s == [] then []
    else if IsSpace(s[0]) then Split(s[1..])
    else
      var n := TokenLen(s);
      [s[..n]] + Split(s[n..])
  }

  /** `sep.join(xs)` */
  function Join(xs: seq<string>, sep: string): string {
    if xs == [] then ""
    else if |xs| == 1 then xs[0]
    else xs[0] + sep + Join(xs[1..], sep)
  }

  /** Index of the first `c` in `s`, or `|s|` when there is none. */
  function IndexOf(s: string, c: char): (i: nat)
    ensures i <= |s|
    ensures forall k :: 0 <= k < i ==> s[k] != c
    ensures i < |s| ==> s[i] == c
  {
    if s == [] then 0 else if s[0] == c then 0 else 1 + IndexOf(s[1..], c)
  }

  /** `s.split(c)` for a one-character separator: always at least one field. */
  function SplitOn(s: string, c: char): (fs: seq<string>)
    ensures |fs| >= 1
    ensures forall i :: 0 <= i < |fs| ==> c !in fs[i]
    decreases |s|
  {
    var i := IndexOf(s, c);
    if i == |s| then [s] else [s[..i]] + SplitOn(s[i + 1..], c)
  }

  /** `s.replace(p, "")` for a non-empty `p`: scanning left to right, every
      non-overlapping occurrence of `p` is dropped. */
  function RemoveAll(s: string, p: string): string
    requires p != []
    decreases |s|
  {
    if |s| < |p| then s
    else if StartsWith(s, p) then RemoveAll(s[|p|..], p)
    else [s[0]] + RemoveAll(s[1..], p)
  }

  /** Index just after the last `/` of `p`, or 0 when there is none. */
  function LastSlashEnd(p: string): (i: nat)
    ensures i <= |p|
    ensures i > 0 ==> p[i - 1] == '/'
    ensures forall k :: i <= k < |p| ==> p[k] != '/'
  {
    if p == [] then 0
    else if p[|p| - 1] == '/' then |p|
    else LastSlashEnd(p[..|p| - 1])
  }

  /** `os.path.basename(p)`: what follows the last `/`. */
  function Basename(p: string): (b: string)
    ensures '/' !in b
  {
    p[LastSlashEnd(p)..]
  }

  // ---------------------------------------------------------------------------
  // Properties

  predicate AllSpace(w: string) {
    forall k :: 0 <= k < |w| ==> IsSpace(w[k])
  }

  /** Splitting tokens joined by one space, followed by any whitespace (a line
      terminator, say), gives the tokens back. */
  lemma {:induction false} SplitJoin(ts: seq<string>, w: string)
    requires AreTokens(ts)
    requires AllSpace(w)
    ensures Split(Join(ts, " ") + w) == ts
    decreases |ts|
  {
    if ts == [] {
      SplitSkipsSpace(w, |w|);
      assert w[|w|..] == [];
      assert Join(ts, " ") + w == w;
    } else if |ts| == 1 {
      var t := ts[0];
      assert Join(ts, " ") + w == t + w;
      SplitToken(t, w);
      SplitSkipsSpace(w, |w|);
      assert w[|w|..] == [];
    } else {
      var t := ts[0];
      var tail := Join(ts[1..], " ");
      var rest := " " + (tail + w);
      assert Join(ts, " ") + w == t + rest;
      SplitToken(t, rest);
      SplitSkipsSpace(rest, 1);
      assert rest[1..] == tail + w;
      SplitJoin(ts[1..], w);
    }
  }

  /** A whitespace-free token followed by nothing or by whitespace is split off whole. */
  lemma {:induction false} SplitToken(t: string, rest: string)
    requires t != [] && NoSpace(t)
    requires rest == [] || IsSpace(rest[0])
    ensures Split(t + rest) == [t] + Split(rest)
  {
    var s := t + rest;
    TokenLenOf(t, rest);
    assert s[..|t|] == t;
    assert s[|t|..] == rest;
  }

  lemma {:induction false} TokenLenOf(t: string, rest: string)
    requires NoSpace(t)
    requires rest == [] || IsSpace(rest[0])
    ensures TokenLen(t + rest) == |t|
    decreases |t|
  {
    if t != [] {
      assert (t + rest)[1..] == t[1..] + rest;
      TokenLenOf(t[1..], rest);
    } else {
      assert t + rest == rest;
    }
  }

  /** Leading whitespace does not change `str.split()`. */
  lemma {:induction false} SplitSkipsSpace(s: string, i: nat)
    requires i <= |s|
    requires forall k :: 0 <= k < i ==> IsSpace(s[k])
    ensures Split(s[i..]) == Split(s)
    decreases i
  {
    if i > 0 {
      assert s[1..][i - 1..] == s[i..];
      SplitSkipsSpace(s[1..], i - 1);
    }
  }

  /** Splitting on `c` inverts joining with `c` when no field holds `c`. */
  lemma {:induction false} SplitOnJoin(xs: seq<string>, c: char)
    requires |xs| >= 1
    requires forall i :: 0 <= i < |xs| ==> c !in xs[i]
    ensures SplitOn(Join(xs, [c]), c) == xs
    decreases |xs|
  {
    var x := xs[0];
    if |xs| == 1 {
      IndexOfAbsent(x, c);
    } else {
      var tail := Join(xs[1..], [c]);
      var s := x + [c] + tail;
      assert Join(xs, [c]) == s;
      IndexOfAbsent(x, c);
      IndexOfPrefix(x, [c] + tail, c);
      assert s == x + ([c] + tail);
      assert s[..|x|] == x;
      assert s[|x| + 1..] == tail;
      SplitOnJoin(xs[1..], c);
    }
  }

  lemma IndexOfAbsent(s: string, c: char)
    requires c !in s
    ensures IndexOf(s, c) == |s|
  {
  }

  lemma {:induction false} IndexOfPrefix(a: string, b: string, c: char)
    requires c !in a
    requires b != [] && b[0] == c
    ensures IndexOf(a + b, c) == |a|
    decreases |a|
  {
    if a != [] {
      assert (a + b)[1..] == a[1..] + b;
      assert forall k :: 0 <= k < |a| - 1 ==> a[1..][k] == a[k + 1];
      IndexOfPrefix(a[1..], b, c);
    } else {
      assert a + b == b;
    }
  }

  /** Removing `p` from a string that starts with `p` drops that occurrence first. */
  lemma RemoveAllLeading(p: string, rest: string)
    requires p != []
    ensures RemoveAll(p + rest, p) == RemoveAll(rest, p)
  {
    var s := p + rest;
    assert s[..|p|] == p;
    assert s[|p|..] == rest;
  }

  /** `p` occurs in `s` at some index below `n`. */
  predicate OccursBefore(s: string, p: string, n: nat) {
    exists i :: 0 <= i < n && OccursAt(s, p, i)
  }

  /** An occurrence in `s[1..]` is an occurrence in `s`, one index later. */
  lemma OccursAtTail(s: string, p: string, i: nat)
    requires |s| > 0
    ensures OccursAt(s[1..], p, i) == OccursAt(s, p, i + 1)
  {
    if i + |p| <= |s| - 1 {
      assert s[1..][i..i + |p|] == s[i + 1..i + 1 + |p|];
    }
  }

  /** `s.replace(p, "")` leaves `s` unchanged when `p` does not occur in it. */
  lemma {:induction false} RemoveAllAbsent(s: string, p: string)
    requires p != []
    requires !OccursBefore(s, p, |s|)
    ensures RemoveAll(s, p) == s
    decreases |s|
  {
    if |s| >= |p| {
      assert !OccursAt(s, p, 0);
      forall i | 0 <= i < |s| - 1
        ensures !OccursAt(s[1..], p, i)
      {
        OccursAtTail(s, p, i);
      }
      RemoveAllAbsent(s[1..], p);
      assert s == [s[0]] + s[1..];
    }
  }

  /** `(a + p).replace(p, "")` is `a` when no occurrence of `p` starts inside `a`. */
  lemma {:induction false} RemoveAllTrailing(a: string, p: string)
    requires p != []
    requires !OccursBefore(a + p, p, |a|)
    ensures RemoveAll(a + p, p) == a
    decreases |a|
  {
    var s := a + p;
    if a == [] {
      assert s == p + [];
      RemoveAllLeading(p, []);
    } else {
      assert !OccursAt(s, p, 0);
      assert s[1..] == a[1..] + p;
      forall i | 0 <= i < |a| - 1
        ensures !OccursAt(a[1..] + p, p, i)
      {
        OccursAtTail(s, p, i);
      }
      RemoveAllTrailing(a[1..], p);
    }
  }

  /** The last slash of `d + "/" + b` is the one before `b` when `b` holds none. */
  lemma {:induction false} LastSlashEndOf(d: string, b: string)
    requires '/' !in b
    ensures LastSlashEnd(d + "/" + b) == |d| + 1
    decreases |b|
  {
    var p := d + "/" + b;
    if b != [] {
      var b' := b[..|b| - 1];
      assert p[|p| - 1] == b[|b| - 1];
      assert p[..|p| - 1] == d + "/" + b';
      LastSlashEndOf(d, b');
    }
  }

  /** The basename of `d + "/" + b` is `b` when `b` holds no slash. */
  lemma BasenameOf(d: string, b: string)
    requires '/' !in b
    ensures Basename(d + "/" + b) == b
  {
    LastSlashEndOf(d, b);
    assert (d + "/" + b)[|d| + 1..] == b;
  }

  /** Joining two non-empty lists is joining each and putting `sep` between. */
  lemma {:induction false} JoinAppend(a: seq<string>, b: seq<string>, sep: string)
    requires a != [] && b != []
    ensures Join(a + b, sep) == Join(a, sep) + sep + Join(b, sep)
    decreases |a|
  {
    if |a| == 1 {
      assert (a + b)[1..] == b;
    } else {
      assert (a + b)[1..] == a[1..] + b;
      JoinAppend(a[1..], b, sep);
    }
  }

  /** Joining a list extended by more words: the join of the list, then the rest. */
  lemma JoinExtended(ws: seq<string>, extra: seq<string>, w: string) returns (r: string)
    requires ws != []
    ensures Join(ws + extra, " ") + w == Join(ws, " ") + r
  {
    if extra == [] {
      assert ws + extra == ws;
      r := w;
    } else {
      JoinAppend(ws, extra, " ");
      r := " " + Join(extra, " ") + w;
    }
  }

  /** A character that occurs in no field and not in the separator does not occur
      in the joined string. */
  lemma {:induction false} JoinAvoids(xs: seq<string>, sep: string, c: char)
    requires forall i :: 0 <= i < |xs| ==> c !in xs[i]
    requires c !in sep
    ensures c !in Join(xs, sep)
    decreases |xs|
  {
    if |xs| > 1 {
      JoinAvoids(xs[1..], sep, c);
    }
  }

  /** A whitespace run and then anything: splitting gives the split of the rest. */
  lemma SplitAfterSpace(w: string, s: string)
    requires AllSpace(w)
    ensures Split(w + s) == Split(s)
  {
    SplitSkipsSpace(w + s, |w|);
    assert (w + s)[|w|..] == s;
  }

  /** A token, then a whitespace run, then anything: the token, then the split of
      the rest. */
  lemma SplitTokenSpace(t: string, w: string, s: string)
    requires t != [] && NoSpace(t)
    requires AllSpace(w) && w != []
    ensures Split(t + (w + s)) == [t] + Split(s)
  {
    SplitToken(t, w + s);
    SplitAfterSpace(w, s);
  }

  /** Several tokens joined by single spaces: the first token, then the split of the
      others. */
  lemma SplitJoinedStep(ts: seq<string>, w: string, s: string)
    requires |ts| > 1 && AreTokens(ts)
    ensures AreTokens(ts[1..])
    ensures Split(Join(ts, " ") + w + s) == [ts[0]] + Split(Join(ts[1..], " ") + w + s)
  {
    var t, tail := ts[0], Join(ts[1..], " ");
    assert Join(ts, " ") + w + s == t + (" " + (tail + w + s));
    SplitTokenSpace(t, " ", tail + w + s);
    assert forall i :: 0 <= i < |ts| - 1 ==> ts[1..][i] == ts[i + 1];
  }

  /** A non-empty sequence followed by another is its head, then its tail followed
      by the other. */
  lemma ConsAppend<T>(xs: seq<T>, ys: seq<T>)
    requires xs != []
    ensures [xs[0]] + (xs[1..] + ys) == xs + ys
  {
    assert xs == [xs[0]] + xs[1..];
  }

  /** `SplitConcat` for no token or a single one. */
  lemma SplitConcatShort(ts: seq<string>, w: string, s: string)
    requires |ts| <= 1 && AreTokens(ts)
    requires AllSpace(w) && w != []
    ensures Split(Join(ts, " ") + w + s) == ts + Split(s)
  {
    if ts == [] {
      assert Join(ts, " ") + w + s == w + s;
      SplitAfterSpace(w, s);
    } else {
      assert Join(ts, " ") + w + s == ts[0] + (w + s);
      SplitTokenSpace(ts[0], w, s);
    }
  }

  /** Tokens joined by single spaces, then a non-empty whitespace run, then
      anything: splitting gives the tokens, then the split of the rest. */
  lemma {:induction false} SplitConcat(ts: seq<string>, w: string, s: string)
    requires AreTokens(ts)
    requires AllSpace(w) && w != []
    ensures Split(Join(ts, " ") + w + s) == ts + Split(s)
    decreases |ts|
  {
    if |ts| <= 1 {
      SplitConcatShort(ts, w, s);
    } else {
      SplitJoinedStep(ts, w, s);
      SplitConcat(ts[1..], w, s);
      ConsAppend(ts, Split(s));
    }
  }
}
