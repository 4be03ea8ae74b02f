/** The browser address bar as state of the visualizer (`visualize/url.py`): the
    selected columns go into the query string, the files into the path and the
    hosts into the fragment, and `parse_url` reads all of them back. */
module Url {
  import opened Errors
  import opened Text

  // ---------------------------------------------------------------------------
  // update_url_select: the query string

  /** A Dash value is truthy when it is present and not the empty string. */
  predicate Truthy(x: Option<string>) {
    x.Some? && x.value != ""
  }

  /** The first query parameter: `?x=<x>` for a selected x column, else a bare `?`. */
  function FirstPart(x: Option<string>): (p: string)
    ensures StartsWith(p, "?")
    ensures Truthy(x) <==> |p| > 1
  {
    if Truthy(x) then "?x=" + x.value else "?"
  }

  /** `[f"{key}={v}" for v in vs]` */
  function Pairs(key: string, vs: seq<string>): (ps: seq<string>)
    ensures |ps| == |vs|
    ensures forall i :: 0 <= i < |vs| ==> ps[i] == key + "=" + vs[i]
  {
    seq(|vs|, i requires 0 <= i < |vs| => key + "=" + vs[i])
  }

  /** The parameters of the query in order; `&` joins them. */
  function SearchParts(x: Option<string>, ys: seq<string>, zs: seq<string>, ts: seq<string>, dim: string)
    : (ps: seq<string>)
    ensures |ps| == 2 + |ys| + |zs| + |ts|
    ensures ps[0] == FirstPart(x) && ps[|ps| - 1] == "dim=" + dim
  {
    [FirstPart(x)] + Pairs("y", ys) + Pairs("z", zs) + Pairs("t", ts) + ["dim=" + dim]
  }

  /** The query string written for a selection. */
  function Search(x: Option<string>, ys: seq<string>, zs: seq<string>, ts: seq<string>, dim: string): string {
    Join(SearchParts(x, ys, zs, ts, dim), "&")
  }

  /** `update_url_select`: builds the parameter list step by step and joins it. */
  method UpdateUrlSelect(x: Option<string>, ys: seq<string>, zs: seq<string>, ts: seq<string>, dim: string)
    returns (search: string)
    ensures search == Search(x, ys, zs, ts, dim)
  {
    var parts: seq<string>;
    if Truthy(x) {
      parts := ["?x=" + x.value];
    } else {
      parts := ["?"];
    }
    assert parts == [FirstPart(x)];
    if ys != [] {
      parts := parts + Pairs("y", ys);
    }
    assert parts == [FirstPart(x)] + Pairs("y", ys);
    if zs != [] {
      parts := parts + Pairs("z", zs);
    }
    assert parts == [FirstPart(x)] + Pairs("y", ys) + Pairs("z", zs);
    if ts != [] {
      parts := parts + Pairs("t", ts);
    }
    assert parts == [FirstPart(x)] + Pairs("y", ys) + Pairs("z", zs) + Pairs("t", ts);
    parts := parts + ["dim=" + dim];
    search := Join(parts, "&");
  }

  /** The query always starts with `?` and ends with the dimension; without an x
      column the `?` stands alone before the first `&`. */
  lemma SearchShape(x: Option<string>, ys: seq<string>, zs: seq<string>, ts: seq<string>, dim: string)
    ensures StartsWith(Search(x, ys, zs, ts, dim), FirstPart(x) + "&")
    ensures EndsWith(Search(x, ys, zs, ts, dim), "&dim=" + dim)
  {
    var parts := SearchParts(x, ys, zs, ts, dim);
    var s := Search(x, ys, zs, ts, dim);
    assert s == FirstPart(x) + "&" + Join(parts[1..], "&");
    assert s[..|FirstPart(x) + "&"|] == FirstPart(x) + "&";
    JoinAppend(parts[..|parts| - 1], [parts[|parts| - 1]], "&");
    assert parts[..|parts| - 1] + [parts[|parts| - 1]] == parts;
    assert s == Join(parts[..|parts| - 1], "&") + "&dim=" + dim;
    assert s[|s| - |"&dim=" + dim|..] == "&dim=" + dim;
  }

  // ---------------------------------------------------------------------------
  // re.findall(r"<key>=(\S*?)(?:&|\Z)", search)

  /** Where a lazily matched value that starts at `j` stops: at the first `&` or the
      end of the string, unless a whitespace character comes first, in which case
      the match fails there. */
  function ValueEnd(s: string, j: nat): (k: nat)
    requires j <= |s|
    ensures j <= k <= |s|
    ensures forall i :: j <= i < k ==> s[i] != '&' && !IsSpace(s[i])
    ensures k < |s| ==> s[k] == '&' || IsSpace(s[k])
    decreases |s| - j
  {
    if j == |s| || s[j] == '&' || IsSpace(s[j]) then j else ValueEnd(s, j + 1)
  }

  /** `re.findall(PARAM_FIND.format(key), s)`: the scan tries every position in
      turn and, after a match, resumes behind the `&` it consumed. */
  function ParamValues(key: string, s: string): (vs: seq<string>)
    ensures forall i :: 0 <= i < |vs| ==> '&' !in vs[i] && NoSpace(vs[i])
    decreases |s|
  {
    if s == [] then []
    else if StartsWith(s, key + "=") then
      var k := ValueEnd(s, |key| + 1);
      if k == |s| then [s[|key| + 1..]]
      else if s[k] == '&' then [s[|key| + 1..k]] + ParamValues(key, s[k + 1..])
      else ParamValues(key, s[1..])
    else ParamValues(key, s[1..])
  }

  /** A parameter value that survives the round trip through the query string. */
  predicate Clean(v: string) {
    '=' !in v && '&' !in v && NoSpace(v)
  }

  predicate EndsWith(s: string, p: string) {
    |p| <= |s| && s[|s| - |p|..] == p
  }

  lemma ValueEndAt(s: string, j: nat, m: nat)
    requires j <= m <= |s|
    requires forall i :: j <= i < m ==> s[i] != '&' && !IsSpace(s[i])
    requires m == |s| || s[m] == '&'
    ensures ValueEnd(s, j) == m
  {
  }

  /** Without an `=` nothing matches. */
  lemma {:induction false} NoEqualsNoValues(key: string, s: string)
    requires '=' !in s
    ensures ParamValues(key, s) == []
    decreases |s|
  {
    if s != [] {
      if |key| + 1 <= |s| {
        assert s[..|key| + 1][|key|] == s[|key|] != '=';
        assert (key + "=")[|key|] == '=';
      }
      NoEqualsNoValues(key, s[1..]);
    }
  }

  /** One parameter `q=v`: a key's value is found exactly when the name ends
      with the key. */
  lemma {:induction false} PartValues(q: string, key: string, v: string)
    requires key != [] && '=' !in key
    requires '=' !in q && Clean(v)
    ensures ParamValues(key, q + "=" + v) == if EndsWith(q, key) then [v] else []
    decreases |q|
  {
    var s := q + "=" + v;
    if StartsWith(s, key + "=") {
      assert forall i :: 0 <= i < |q| ==> s[i] == q[i] && s[i] != '=';
      assert forall i :: 0 <= i < |key| ==> s[i] == key[i] && s[i] != '=';
      assert s[|key|] == (key + "=")[|key|] == '=';
      assert s[|q|] == '=';
      assert q == key by { assert q == s[..|q|] && key == s[..|key|]; }
      ValueEndAt(s, |key| + 1, |s|);
      assert s[|key| + 1..] == v;
    } else if q == [] {
      assert s[1..] == v;
      NoEqualsNoValues(key, v);
    } else {
      assert s[1..] == q[1..] + "=" + v;
      PartValues(q[1..], key, v);
      if EndsWith(q, key) {
        assert |key| < |q| by {
          assert |key| == |q| ==> StartsWith(s, key + "=") by {
            assert s[..|q| + 1] == q + "=";
          }
        }
        assert q[1..][|q| - 1 - |key|..] == q[|q| - |key|..];
      }
      if EndsWith(q[1..], key) {
        assert q[1..][|q| - 1 - |key|..] == q[|q| - |key|..];
      }
    }
  }

  /** `PartThenRest` when the parameter is `key=...`. */
  lemma MatchThenRest(key: string, p: string, rest: string)
    requires key != [] && '&' !in key
    requires '&' !in p && NoSpace(p) && p != []
    requires StartsWith(p + "&" + rest, key + "=")
    ensures ParamValues(key, p + "&" + rest) == ParamValues(key, p) + ParamValues(key, rest)
  {
    var s := p + "&" + rest;
    var j := |key| + 1;
    assert forall i :: 0 <= i < j ==> s[i] == (key + "=")[i] && s[i] != '&';
    assert s[|p|] == '&';
    assert s[..|p|] == p;
    assert StartsWith(p, key + "=") by { assert p[..j] == s[..j]; }
    ValueEndAt(s, j, |p|);
    ValueEndAt(p, j, |p|);
    assert s[|p| + 1..] == rest;
    assert s[j..|p|] == p[j..];
  }

  /** A parameter followed by `&` is scanned on its own: no match runs across
      the separator. */
  lemma {:induction false} PartThenRest(key: string, p: string, rest: string)
    requires key != [] && '&' !in key
    requires '&' !in p && NoSpace(p)
    ensures ParamValues(key, p + "&" + rest) == ParamValues(key, p) + ParamValues(key, rest)
    decreases |p|
  {
    var s := p + "&" + rest;
    if p == [] {
      assert s[0] == '&' && (key + "=")[0] == key[0] && key[0] in key;
      assert s[1..] == rest;
    } else if StartsWith(s, key + "=") {
      MatchThenRest(key, p, rest);
    } else {
      assert !StartsWith(p, key + "=") by {
        assert s[..|p|] == p;
        if |key + "="| <= |p| {
          assert s[..|key + "="|] == p[..|key + "="|];
        }
      }
      assert s[1..] == p[1..] + "&" + rest;
      PartThenRest(key, p[1..], rest);
    }
  }

  /** The values of `key` found in each parameter, in order. */
  function AllValues(key: string, parts: seq<string>): seq<string> {
    if parts == [] then [] else ParamValues(key, parts[0]) + AllValues(key, parts[1..])
  }

  lemma {:induction false} AllValuesAppend(key: string, a: seq<string>, b: seq<string>)
    ensures AllValues(key, a + b) == AllValues(key, a) + AllValues(key, b)
  {
    if a == [] {
      assert a + b == b;
    } else {
      assert (a + b)[0] == a[0];
      assert (a + b)[1..] == a[1..] + b;
      AllValuesAppend(key, a[1..], b);
    }
  }

  /** Scanning the joined query is scanning its parameters one by one. */
  lemma {:induction false} JoinedValues(key: string, parts: seq<string>)
    requires key != [] && '&' !in key
    requires forall i :: 0 <= i < |parts| ==> '&' !in parts[i] && NoSpace(parts[i])
    ensures ParamValues(key, Join(parts, "&")) == AllValues(key, parts)
  {
    if |parts| == 1 {
      assert AllValues(key, parts[1..]) == [];
    } else if |parts| > 1 {
      PartThenRest(key, parts[0], Join(parts[1..], "&"));
      JoinedValues(key, parts[1..]);
    }
  }

  lemma {:induction false} PairsValues(key: string, name: string, vs: seq<string>)
    requires key != [] && '=' !in key && '=' !in name
    requires forall i :: 0 <= i < |vs| ==> Clean(vs[i])
    ensures AllValues(key, Pairs(name, vs)) == if EndsWith(name, key) then vs else []
  {
    if vs != [] {
      assert Pairs(name, vs)[1..] == Pairs(name, vs[1..]);
      PartValues(name, key, vs[0]);
      PairsValues(key, name, vs[1..]);
    }
  }

  /** No parameter of the query holds `&` or whitespace when no value does. */
  lemma PartsClean(x: Option<string>, ys: seq<string>, zs: seq<string>, ts: seq<string>, dim: string)
    requires Truthy(x) ==> Clean(x.value)
    requires forall i :: 0 <= i < |ys| ==> Clean(ys[i])
    requires forall i :: 0 <= i < |zs| ==> Clean(zs[i])
    requires forall i :: 0 <= i < |ts| ==> Clean(ts[i])
    requires Clean(dim)
    ensures var parts := SearchParts(x, ys, zs, ts, dim);
      forall i :: 0 <= i < |parts| ==> '&' !in parts[i] && NoSpace(parts[i])
  {
    var parts := SearchParts(x, ys, zs, ts, dim);
    forall i | 0 <= i < |parts| ensures '&' !in parts[i] && NoSpace(parts[i]) {
      if 0 < i < |parts| - 1 {
        if i <= |ys| {
          assert parts[i] == "y=" + ys[i - 1];
        } else if i <= |ys| + |zs| {
          assert parts[i] == "z=" + zs[i - 1 - |ys|];
        } else {
          assert parts[i] == "t=" + ts[i - 1 - |ys| - |zs|];
        }
      }
    }
  }

  lemma SearchAllValues(key: string, x: Option<string>, ys: seq<string>, zs: seq<string>, ts: seq<string>, dim: string)
    ensures AllValues(key, SearchParts(x, ys, zs, ts, dim)) ==
      ParamValues(key, FirstPart(x)) + AllValues(key, Pairs("y", ys)) + AllValues(key, Pairs("z", zs))
      + AllValues(key, Pairs("t", ts)) + ParamValues(key, "dim=" + dim)
  {
    var first := [FirstPart(x)];
    AllValuesAppend(key, first + Pairs("y", ys) + Pairs("z", zs) + Pairs("t", ts), ["dim=" + dim]);
    AllValuesAppend(key, first + Pairs("y", ys) + Pairs("z", zs), Pairs("t", ts));
    AllValuesAppend(key, first + Pairs("y", ys), Pairs("z", zs));
    AllValuesAppend(key, first, Pairs("y", ys));
    assert AllValues(key, first) == ParamValues(key, FirstPart(x)) + AllValues(key, []);
    assert AllValues(key, ["dim=" + dim]) == ParamValues(key, "dim=" + dim) + AllValues(key, []);
  }

  lemma ColumnValues(key: string, ys: seq<string>, zs: seq<string>, ts: seq<string>)
    requires key != [] && '=' !in key
    requires forall i :: 0 <= i < |ys| ==> Clean(ys[i])
    requires forall i :: 0 <= i < |zs| ==> Clean(zs[i])
    requires forall i :: 0 <= i < |ts| ==> Clean(ts[i])
    ensures AllValues(key, Pairs("y", ys)) == if EndsWith("y", key) then ys else []
    ensures AllValues(key, Pairs("z", zs)) == if EndsWith("z", key) then zs else []
    ensures AllValues(key, Pairs("t", ts)) == if EndsWith("t", key) then ts else []
  {
    PairsValues(key, "y", ys);
    PairsValues(key, "z", zs);
    PairsValues(key, "t", ts);
  }

  lemma SearchPieces(key: string, x: Option<string>, ys: seq<string>, zs: seq<string>, ts: seq<string>, dim: string)
    requires key != [] && '&' !in key
    requires Truthy(x) ==> Clean(x.value)
    requires forall i :: 0 <= i < |ys| ==> Clean(ys[i])
    requires forall i :: 0 <= i < |zs| ==> Clean(zs[i])
    requires forall i :: 0 <= i < |ts| ==> Clean(ts[i])
    requires Clean(dim)
    ensures ParamValues(key, Search(x, ys, zs, ts, dim)) ==
      ParamValues(key, FirstPart(x)) + AllValues(key, Pairs("y", ys)) + AllValues(key, Pairs("z", zs))
      + AllValues(key, Pairs("t", ts)) + ParamValues(key, "dim=" + dim)
  {
    PartsClean(x, ys, zs, ts, dim);
    JoinedValues(key, SearchParts(x, ys, zs, ts, dim));
    SearchAllValues(key, x, ys, zs, ts, dim);
  }

  lemma FirstValues(key: string, x: Option<string>)
    requires key != [] && '=' !in key
    requires Truthy(x) ==> Clean(x.value)
    ensures ParamValues(key, FirstPart(x)) == if Truthy(x) && EndsWith("?x", key) then [x.value] else []
  {
    if Truthy(x) {
      assert "?x" + "=" + x.value == FirstPart(x);
      PartValues("?x", key, x.value);
    } else {
      NoEqualsNoValues(key, "?");
    }
  }

  lemma DimValues(key: string, dim: string)
    requires key != [] && '=' !in key
    requires Clean(dim)
    ensures ParamValues(key, "dim=" + dim) == if EndsWith("dim", key) then [dim] else []
  {
    assert "dim" + "=" + dim == "dim=" + dim;
    PartValues("dim", key, dim);
  }

  /** The selection written into the query string is what `parse_url` finds in
      it again, key by key, when no value holds `=`, `&` or whitespace. */
  lemma SearchValues(key: string, x: Option<string>, ys: seq<string>, zs: seq<string>, ts: seq<string>, dim: string)
    requires key != [] && '=' !in key && '&' !in key
    requires Truthy(x) ==> Clean(x.value)
    requires forall i :: 0 <= i < |ys| ==> Clean(ys[i])
    requires forall i :: 0 <= i < |zs| ==> Clean(zs[i])
    requires forall i :: 0 <= i < |ts| ==> Clean(ts[i])
    requires Clean(dim)
    ensures ParamValues(key, Search(x, ys, zs, ts, dim)) ==
      (if Truthy(x) && EndsWith("?x", key) then [x.value] else [])
      + (if EndsWith("y", key) then ys else [])
      + (if EndsWith("z", key) then zs else [])
      + (if EndsWith("t", key) then ts else [])
      + (if EndsWith("dim", key) then [dim] else [])
  {
    SearchPieces(key, x, ys, zs, ts, dim);
    FirstValues(key, x);
    ColumnValues(key, ys, zs, ts);
    DimValues(key, dim);
  }

  lemma EndsWithChar(s: string, c: char)
    ensures EndsWith(s, [c]) <==> s != [] && s[|s| - 1] == c
  {
    if s != [] {
      assert s[|s| - 1..] == [s[|s| - 1]];
    }
  }

  /** Which of the keys `parse_url` looks up end one another's names: none. */
  lemma KeysApart()
    ensures EndsWith("?x", "x") && !EndsWith("y", "x") && !EndsWith("z", "x") && !EndsWith("t", "x") && !EndsWith("dim", "x")
    ensures !EndsWith("?x", "y") && EndsWith("y", "y") && !EndsWith("z", "y") && !EndsWith("t", "y") && !EndsWith("dim", "y")
    ensures !EndsWith("?x", "z") && !EndsWith("y", "z") && EndsWith("z", "z") && !EndsWith("t", "z") && !EndsWith("dim", "z")
    ensures !EndsWith("?x", "t") && !EndsWith("y", "t") && !EndsWith("z", "t") && EndsWith("t", "t") && !EndsWith("dim", "t")
    ensures !EndsWith("?x", "dim") && !EndsWith("y", "dim") && !EndsWith("z", "dim") && !EndsWith("t", "dim") && EndsWith("dim", "dim")
  {
    EndsWithChar("?x", 'x'); EndsWithChar("y", 'x'); EndsWithChar("z", 'x'); EndsWithChar("t", 'x'); EndsWithChar("dim", 'x');
    EndsWithChar("?x", 'y'); EndsWithChar("y", 'y'); EndsWithChar("z", 'y'); EndsWithChar("t", 'y'); EndsWithChar("dim", 'y');
    EndsWithChar("?x", 'z'); EndsWithChar("y", 'z'); EndsWithChar("z", 'z'); EndsWithChar("t", 'z'); EndsWithChar("dim", 'z');
    EndsWithChar("?x", 't'); EndsWithChar("y", 't'); EndsWithChar("z", 't'); EndsWithChar("t", 't'); EndsWithChar("dim", 't');
    assert "dim"[0..] == "dim";
  }

  // ---------------------------------------------------------------------------
  // update_ulr: the path and the fragment

  /** One entry of the path stores. */
  datatype HostData = HostData(path: string, host: string)

  /** Behind the web server the application lives under `/<subdir>`, which Dash
      would otherwise drop from the path: a file name gets that prefix when the
      page address mentions the sub-directory and the name does not yet start
      with it. */
  function Prefixed(f: string, href: string, subdir: string): (g: string)
    ensures g == f || g == "/" + subdir + f
    ensures Contains(href, subdir) ==> StartsWith(g, "/" + subdir)
    ensures !Contains(href, subdir) || StartsWith(f, "/" + subdir) ==> g == f
  {
    if Contains(href, subdir) && !StartsWith(f, "/" + subdir) then "/" + subdir + f else f
  }

  function Paths(hd: seq<HostData>): (fs: seq<string>)
    ensures |fs| == |hd| && forall i :: 0 <= i < |hd| ==> fs[i] == hd[i].path
  {
    seq(|hd|, i requires 0 <= i < |hd| => hd[i].path)
  }

  function Hosts(hd: seq<HostData>): (hs: seq<string>)
    ensures |hs| == |hd| && forall i :: 0 <= i < |hd| ==> hs[i] == hd[i].host
  {
    seq(|hd|, i requires 0 <= i < |hd| => hd[i].host)
  }

  function PrefixedAll(fs: seq<string>, href: string, subdir: string): (gs: seq<string>)
    ensures |gs| == |fs| && forall i :: 0 <= i < |fs| ==> gs[i] == Prefixed(fs[i], href, subdir)
  {
    seq(|fs|, i requires 0 <= i < |fs| => Prefixed(fs[i], href, subdir))
  }

  /** `update_ulr(host_data, href)` with `APACHE_URL_SUBDIR` as `subdir`: the file
      names, each rewritten in place, joined by `|`; and `#` before the hosts
      joined by `|`. */
  method UpdateUlr(hd: seq<HostData>, href: string, subdir: string) returns (pathname: string, hash: string)
    ensures pathname == Join(PrefixedAll(Paths(hd), href, subdir), "|")
    ensures hash == "#" + Join(Hosts(hd), "|")
  {
    var filenames := Paths(hd);
    ghost var paths := filenames;
    ghost var want := PrefixedAll(paths, href, subdir);
    var hosts := Hosts(hd);
    var i := 0;
    while i < |filenames|
      invariant i <= |filenames| == |paths| == |want|
      invariant forall k :: 0 <= k < i ==> filenames[k] == want[k]
      invariant forall k :: i <= k < |filenames| ==> filenames[k] == paths[k]
    {
      var filename := filenames[i];
      if Contains(href, subdir) && !StartsWith(filename, "/" + subdir) {
        filename := "/" + subdir + filename;
      }
      assert filename == want[i];
      filenames := filenames[i := filename];
      i := i + 1;
    }
    assert filenames == want;
    pathname := Join(filenames, "|");
    hash := "#" + Join(hosts, "|");
  }

  /** Prefixing twice is prefixing once. */
  lemma PrefixedIdempotent(f: string, href: string, subdir: string)
    ensures Prefixed(Prefixed(f, href, subdir), href, subdir) == Prefixed(f, href, subdir)
  {
    if Contains(href, subdir) && !StartsWith(f, "/" + subdir) {
      var g := "/" + subdir + f;
      assert g[..|"/" + subdir|] == "/" + subdir;
    }
  }

  // ---------------------------------------------------------------------------
  // parse_url

  /** The selection `parse_url` hands to the column selectors. */
  datatype Selection = Selection(x: string, ys: seq<string>, zs: seq<string>, ts: seq<string>, dim: string)

  /** What `parse_url` returns: hosts and file names, and a selection or, when the
      selection is incomplete, `dash.no_update` for all five of its outputs. */
  datatype Parsed = Parsed(hosts: seq<string>, filenames: seq<string>, selection: Option<Selection>)

  /** A selection complete enough for the plot dimension. */
  predicate Complete(dim: string, xs: seq<string>, ys: seq<string>, zs: seq<string>) {
    (StartsWith(dim, "2D") && xs != [] && ys != [])
    || (StartsWith(dim, "3D") && xs != [] && ys != [] && zs != [])
  }

  /** `parse_url(url)`, given the groups `(filename, search, host)` of the first
      match of the address pattern, or `None` when the pattern does not match. */
  function ParseUrl(groups: Option<(string, string, string)>): (r: Result<Parsed>)
    ensures r.Err? <==> groups.None?
    ensures r.Err? ==> r.error == PreventUpdate
    ensures r.Ok? ==> |r.value.hosts| >= 1 && |r.value.filenames| >= 1
    ensures r.Ok? ==> forall i :: 0 <= i < |r.value.hosts| ==> '|' !in r.value.hosts[i]
    ensures r.Ok? && r.value.selection.Some? ==>
      var sel := r.value.selection.value;
      '&' !in sel.x && NoSpace(sel.x) && sel.ys != []
      && (StartsWith(sel.dim, "2D") || (StartsWith(sel.dim, "3D") && sel.zs != []))
  {
    match groups
    case None => Err(PreventUpdate)
    case Some(g) =>
      var search := g.1;
      var xs := ParamValues("x", search);
      var ys := ParamValues("y", search);
      var zs := ParamValues("z", search);
      var ts := ParamValues("t", search);
      var dims := ParamValues("dim", search);
      var dim := if dims == [] then "2D" else dims[0];
      var selection := if Complete(dim, xs, ys, zs) then Some(Selection(xs[0], ys, zs, ts, dim)) else None;
      Ok(Parsed(SplitOn(g.2, '|'), SplitOn(g.0, '|'), selection))
  }

  /** A query without a `dim` parameter is read as a 2D plot. */
  lemma DimDefaultsTo2D(f: string, search: string, h: string)
    requires ParamValues("dim", search) == []
    requires ParamValues("x", search) != [] && ParamValues("y", search) != []
    ensures ParseUrl(Some((f, search, h))).value.selection.Some?
    ensures ParseUrl(Some((f, search, h))).value.selection.value.dim == "2D"
  {
  }

  /** Each key `parse_url` looks up finds exactly the values written for it. */
  lemma KeyValues(x: Option<string>, ys: seq<string>, zs: seq<string>, ts: seq<string>, dim: string)
    requires Truthy(x) ==> Clean(x.value)
    requires forall i :: 0 <= i < |ys| ==> Clean(ys[i])
    requires forall i :: 0 <= i < |zs| ==> Clean(zs[i])
    requires forall i :: 0 <= i < |ts| ==> Clean(ts[i])
    requires Clean(dim)
    ensures ParamValues("x", Search(x, ys, zs, ts, dim)) == if Truthy(x) then [x.value] else []
    ensures ParamValues("y", Search(x, ys, zs, ts, dim)) == ys
    ensures ParamValues("z", Search(x, ys, zs, ts, dim)) == zs
    ensures ParamValues("t", Search(x, ys, zs, ts, dim)) == ts
    ensures ParamValues("dim", Search(x, ys, zs, ts, dim)) == [dim]
  {
    ValuesOfX(x, ys, zs, ts, dim);
    ValuesOfY(x, ys, zs, ts, dim);
    ValuesOfZ(x, ys, zs, ts, dim);
    ValuesOfT(x, ys, zs, ts, dim);
    ValuesOfDim(x, ys, zs, ts, dim);
  }

  lemma ValuesOfX(x: Option<string>, ys: seq<string>, zs: seq<string>, ts: seq<string>, dim: string)
    requires Truthy(x) ==> Clean(x.value)
    requires forall i :: 0 <= i < |ys| ==> Clean(ys[i])
    requires forall i :: 0 <= i < |zs| ==> Clean(zs[i])
    requires forall i :: 0 <= i < |ts| ==> Clean(ts[i])
    requires Clean(dim)
    ensures ParamValues("x", Search(x, ys, zs, ts, dim)) == if Truthy(x) then [x.value] else []
  {
    KeysApart();
    SearchValues("x", x, ys, zs, ts, dim);
  }

  lemma ValuesOfY(x: Option<string>, ys: seq<string>, zs: seq<string>, ts: seq<string>, dim: string)
    requires Truthy(x) ==> Clean(x.value)
    requires forall i :: 0 <= i < |ys| ==> Clean(ys[i])
    requires forall i :: 0 <= i < |zs| ==> Clean(zs[i])
    requires forall i :: 0 <= i < |ts| ==> Clean(ts[i])
    requires Clean(dim)
    ensures ParamValues("y", Search(x, ys, zs, ts, dim)) == ys
  {
    KeysApart();
    SearchValues("y", x, ys, zs, ts, dim);
  }

  lemma ValuesOfZ(x: Option<string>, ys: seq<string>, zs: seq<string>, ts: seq<string>, dim: string)
    requires Truthy(x) ==> Clean(x.value)
    requires forall i :: 0 <= i < |ys| ==> Clean(ys[i])
    requires forall i :: 0 <= i < |zs| ==> Clean(zs[i])
    requires forall i :: 0 <= i < |ts| ==> Clean(ts[i])
    requires Clean(dim)
    ensures ParamValues("z", Search(x, ys, zs, ts, dim)) == zs
  {
    KeysApart();
    SearchValues("z", x, ys, zs, ts, dim);
  }

  lemma ValuesOfT(x: Option<string>, ys: seq<string>, zs: seq<string>, ts: seq<string>, dim: string)
    requires Truthy(x) ==> Clean(x.value)
    requires forall i :: 0 <= i < |ys| ==> Clean(ys[i])
    requires forall i :: 0 <= i < |zs| ==> Clean(zs[i])
    requires forall i :: 0 <= i < |ts| ==> Clean(ts[i])
    requires Clean(dim)
    ensures ParamValues("t", Search(x, ys, zs, ts, dim)) == ts
  {
    KeysApart();
    SearchValues("t", x, ys, zs, ts, dim);
  }

  lemma ValuesOfDim(x: Option<string>, ys: seq<string>, zs: seq<string>, ts: seq<string>, dim: string)
    requires Truthy(x) ==> Clean(x.value)
    requires forall i :: 0 <= i < |ys| ==> Clean(ys[i])
    requires forall i :: 0 <= i < |zs| ==> Clean(zs[i])
    requires forall i :: 0 <= i < |ts| ==> Clean(ts[i])
    requires Clean(dim)
    ensures ParamValues("dim", Search(x, ys, zs, ts, dim)) == [dim]
  {
    KeysApart();
    SearchValues("dim", x, ys, zs, ts, dim);
  }

  /** The query half of the round trip: the selection `update_url_select` writes
      is the one `parse_url` reads, when it is complete for its dimension. */
  lemma SearchRoundTrip(f: string, h: string,
                        x: Option<string>, ys: seq<string>, zs: seq<string>, ts: seq<string>, dim: string)
    requires Truthy(x) ==> Clean(x.value)
    requires forall i :: 0 <= i < |ys| ==> Clean(ys[i])
    requires forall i :: 0 <= i < |zs| ==> Clean(zs[i])
    requires forall i :: 0 <= i < |ts| ==> Clean(ts[i])
    requires Clean(dim)
    ensures var xs := if Truthy(x) then [x.value] else [];
      ParseUrl(Some((f, Search(x, ys, zs, ts, dim), h))).value.selection ==
        if Complete(dim, xs, ys, zs) then Some(Selection(x.value, ys, zs, ts, dim)) else None
  {
    KeyValues(x, ys, zs, ts, dim);
  }

  /** The path and fragment half of the round trip: hosts and (prefixed) file
      names come back in order when none of them holds `|`. */
  lemma PathRoundTrip(hd: seq<HostData>, href: string, subdir: string, search: string)
    requires hd != [] && '|' !in subdir
    requires forall i :: 0 <= i < |hd| ==> '|' !in hd[i].path && '|' !in hd[i].host
    ensures var pathname := Join(PrefixedAll(Paths(hd), href, subdir), "|");
      var hash := "#" + Join(Hosts(hd), "|");
      var r := ParseUrl(Some((pathname, search, hash[1..])));
      r.value.hosts == Hosts(hd) && r.value.filenames == PrefixedAll(Paths(hd), href, subdir)
  {
    var hash := "#" + Join(Hosts(hd), "|");
    assert hash[1..] == Join(Hosts(hd), "|");
    SplitOnJoin(Hosts(hd), '|');
    SplitOnJoin(PrefixedAll(Paths(hd), href, subdir), '|');
  }

  /** The round trip of the address bar: what `update_url_select` and `update_ulr`
      write, `parse_url` reads back — the hosts, the (prefixed) file names and, when
      it is complete for its dimension, the selection — provided that the address
      pattern yields the path, the query and the text behind `#` as its groups,
      and that no host or file name holds `|` and no value `=`, `&` or whitespace. */
  lemma AddressRoundTrip(hd: seq<HostData>, href: string, subdir: string,
                         x: Option<string>, ys: seq<string>, zs: seq<string>, ts: seq<string>, dim: string)
    requires hd != [] && '|' !in subdir
    requires forall i :: 0 <= i < |hd| ==> '|' !in hd[i].path && '|' !in hd[i].host
    requires Truthy(x) ==> Clean(x.value)
    requires forall i :: 0 <= i < |ys| ==> Clean(ys[i])
    requires forall i :: 0 <= i < |zs| ==> Clean(zs[i])
    requires forall i :: 0 <= i < |ts| ==> Clean(ts[i])
    requires Clean(dim)
    ensures var pathname := Join(PrefixedAll(Paths(hd), href, subdir), "|");
      var hash := "#" + Join(Hosts(hd), "|");
      var xs := if Truthy(x) then [x.value] else [];
      ParseUrl(Some((pathname, Search(x, ys, zs, ts, dim), hash[1..]))) ==
        Ok(Parsed(Hosts(hd), PrefixedAll(Paths(hd), href, subdir),
                  if Complete(dim, xs, ys, zs) then Some(Selection(x.value, ys, zs, ts, dim)) else None))
  {
    var pathname := Join(PrefixedAll(Paths(hd), href, subdir), "|");
    var hash := "#" + Join(Hosts(hd), "|");
    SearchRoundTrip(pathname, hash[1..], x, ys, zs, ts, dim);
    PathRoundTrip(hd, href, subdir, Search(x, ys, zs, ts, dim));
  }
}
