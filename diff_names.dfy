/** `DataExtractor._get_diff_names` of `simulation_visualizer/file/extractor.py`,
    with the `os.path.commonpath` and `os.path.basename` it relies on: the label
    each file's rows get in a merged data set. */
module DiffNames {
  import opened Text
  import opened Errors

  const MsgEmptyPaths := "commonpath() arg is an empty sequence"
  const MsgMixedPaths := "Can't mix absolute and relative paths"

  /** `p[:1] == "/"` */
  predicate IsAbs(p: string) {
    |p| > 0 && p[0] == '/'
  }

  /** The fields `commonpath` compares: empty and `.` fields are dropped. */
  function Proper(fs: seq<string>): (cs: seq<string>)
    ensures forall i :: 0 <= i < |cs| ==> cs[i] != "" && cs[i] != "." && cs[i] in fs
  {
    if fs == [] then []
    else if fs[0] == "" || fs[0] == "." then Proper(fs[1..])
    else [fs[0]] + Proper(fs[1..])
  }

  /** The components of a path. */
  function Components(p: string): (cs: seq<string>)
    ensures forall i :: 0 <= i < |cs| ==> cs[i] != "" && cs[i] != "." && '/' !in cs[i]
  {
    Proper(SplitOn(p, '/'))
  }

  /** The longest common prefix of two component lists. */
  function CommonPrefix(a: seq<string>, b: seq<string>): (c: seq<string>)
    ensures |c| <= |a| && |c| <= |b| && c == a[..|c|] && c == b[..|c|]
    ensures |c| < |a| && |c| < |b| ==> a[|c|] != b[|c|]
  {
    if a == [] || b == [] || a[0] != b[0] then []
    else
      var c := CommonPrefix(a[1..], b[1..]);
      assert [a[0]] + c == a[..|c| + 1] && [a[0]] + c == b[..|c| + 1];
      [a[0]] + c
  }

  /** The longest prefix common to every list. Python takes it from the
      lexicographically least and greatest lists, which gives the same prefix. */
  function CommonAll(css: seq<seq<string>>): (c: seq<string>)
    requires css != []
    ensures forall i :: 0 <= i < |css| ==> |c| <= |css[i]| && c == css[i][..|c|]
    ensures |c| < |css[0]| ==> exists i :: 0 <= i < |css| && (|c| == |css[i]| || css[i][|c|] != css[0][|c|])
  {
    if |css| == 1 then css[0]
    else
      var init := css[..|css| - 1];
      var last := css[|css| - 1];
      var c0 := CommonAll(init);
      var c := CommonPrefix(c0, last);
      assert forall i :: 0 <= i < |init| ==> init[i] == css[i];
      assert forall i :: 0 <= i < |css| ==> |c| <= |css[i]| && c == css[i][..|c|] by {
        forall i | 0 <= i < |css|
          ensures |c| <= |css[i]| && c == css[i][..|c|]
        {
          if i < |css| - 1 {
            assert c == c0[..|c|];
          }
        }
      }
      assert |c| < |c0| ==> c0[|c|] == css[0][|c|];
      c
  }

  /** `os.path.commonpath(paths)` */
  function CommonPath(paths: seq<string>): (r: Result<string>)
    ensures r.Err? <==> paths == [] || exists i :: 0 <= i < |paths| && IsAbs(paths[i]) != IsAbs(paths[0])
    ensures r.Err? && paths != [] ==> r.error == ValueError(MsgMixedPaths)
    ensures r.Err? && paths == [] ==> r.error == ValueError(MsgEmptyPaths)
    ensures r.Ok? ==> (IsAbs(paths[0]) <==> IsAbs(r.value))
  {
    if paths == [] then Err(ValueError(MsgEmptyPaths))
    else if exists i :: 0 <= i < |paths| && IsAbs(paths[i]) != IsAbs(paths[0]) then Err(ValueError(MsgMixedPaths))
    else
      var css := seq(|paths|, i requires 0 <= i < |paths| => Components(paths[i]));
      Ok((if IsAbs(paths[0]) then "/" else "") + Join(CommonAll(css), "/"))
  }

  /** One name: the common directory and then `/` plus the base name are removed,
      each everywhere it occurs. */
  function DiffName(p: string, common: string): string {
    var q := RemoveAll(p, common + "/");
    RemoveAll(q, "/" + Basename(q))
  }

  /** `_get_diff_names()`: one name per path, in path order, or the exception
      `commonpath` raises. */
  function DiffNames(paths: seq<string>): (r: Result<seq<string>>)
    ensures r.Err? <==> CommonPath(paths).Err?
    ensures r.Err? ==> r.error == CommonPath(paths).error
    ensures r.Ok? ==> |r.value| == |paths|
  {
    match CommonPath(paths)
    case Err(e) => Err(e)
    case Ok(c) => Ok(seq(|paths|, i requires 0 <= i < |paths| => DiffName(paths[i], c)))
  }

  // ---------------------------------------------------------------------------
  // Files in sibling directories

  /** A pattern that starts and ends with `/` and is longer than one character
      does not occur in a string with a single `/`. */
  lemma NoSlashedPattern(x: string, b: string, p: string)
    requires '/' !in x && '/' !in b
    requires |p| >= 2 && p[0] == '/' && p[|p| - 1] == '/'
    ensures !OccursBefore(x + "/" + b, p, |x + "/" + b|)
  {
    var s := x + "/" + b;
    forall i | 0 <= i < |s|
      ensures !OccursAt(s, p, i)
    {
      if i + |p| <= |s| {
        var j := if i == |x| then i + |p| - 1 else i;
        assert s[j] != '/' by {
          if j < |x| { assert s[j] == x[j]; } else { assert s[j] == b[j - |x| - 1]; }
        }
        assert s[i..i + |p|][j - i] == s[j] && p[j - i] == '/';
      }
    }
  }

  /** `/` followed by a string without `/` occurs in `x + "/" + b` only at `|x|`. */
  lemma TailOnlyAtSlash(x: string, b: string)
    requires '/' !in x && '/' !in b
    ensures !OccursBefore(x + "/" + b, "/" + b, |x|)
  {
    var s := x + "/" + b;
    forall i | 0 <= i < |x|
      ensures !OccursAt(s, "/" + b, i)
    {
      assert s[i] == x[i];
      NoOccurrenceAtMismatch(s, "/" + b, i);
    }
  }

  /** A pattern starting with `/` does not occur where `s` has no `/`. */
  lemma NoOccurrenceAtMismatch(s: string, p: string, i: nat)
    requires i < |s| && p != [] && p[0] == '/' && s[i] != '/'
    ensures !OccursAt(s, p, i)
  {
    if i + |p| <= |s| {
      assert s[i..i + |p|][0] == s[i];
    }
  }

  /** Below an absolute common directory `c`, a file `x/b` gets the name `x`. */
  lemma DiffNameOf(c: string, x: string, b: string)
    requires IsAbs(c) && '/' !in x && '/' !in b
    ensures DiffName(c + "/" + x + "/" + b, c) == x
  {
    var p := c + "/" + x + "/" + b;
    var pat := c + "/";
    assert p == pat + (x + "/" + b);
    DirectoryRemoved(c, x, b);
    FileRemoved(x, b);
  }

  /** Removing `c + "/"` from `c/x/b` leaves `x/b`. */
  lemma DirectoryRemoved(c: string, x: string, b: string)
    requires IsAbs(c) && '/' !in x && '/' !in b
    ensures RemoveAll((c + "/") + (x + "/" + b), c + "/") == x + "/" + b
  {
    var pat := c + "/";
    RemoveAllLeading(pat, x + "/" + b);
    NoSlashedPattern(x, b, pat);
    RemoveAllAbsent(x + "/" + b, pat);
  }

  /** Removing `/` plus the base name from `x/b` leaves `x`. */
  lemma FileRemoved(x: string, b: string)
    requires '/' !in x && '/' !in b
    ensures RemoveAll(x + "/" + b, "/" + Basename(x + "/" + b)) == x
  {
    BasenameOf(x, b);
    TrailingRemoved(x, b);
  }

  /** Removing `/b` from `x/b` leaves `x`. */
  lemma TrailingRemoved(x: string, b: string)
    requires '/' !in x && '/' !in b
    ensures RemoveAll(x + "/" + b, "/" + b) == x
  {
    TailOnlyAtSlash(x, b);
    assert x + "/" + b == x + ("/" + b);
    RemoveAllTrailing(x, "/" + b);
  }

  /** `"/" + "/".join(cs)` split on `/`. */
  lemma {:induction false} AbsComponents(cs: seq<string>)
    requires cs != [] && forall i :: 0 <= i < |cs| ==> cs[i] != "" && cs[i] != "." && '/' !in cs[i]
    ensures Components("/" + Join(cs, "/")) == cs
  {
    var fs := [""] + cs;
    assert Join(fs, "/") == "" + "/" + Join(fs[1..], "/");
    assert fs[1..] == cs;
    assert forall i :: 0 <= i < |fs| ==> '/' !in fs[i] by {
      forall i | 0 <= i < |fs| ensures '/' !in fs[i] {
        if i > 0 { assert fs[i] == cs[i - 1]; }
      }
    }
    SplitOnJoin(fs, '/');
    ProperKeeps(cs);
  }

  lemma ProperKeeps(cs: seq<string>)
    requires forall i :: 0 <= i < |cs| ==> cs[i] != "" && cs[i] != "."
    ensures Proper([""] + cs) == cs
    ensures Proper(cs) == cs
  {
    assert ([""] + cs)[1..] == cs;
    ProperKeepsAll(cs);
  }

  /** Proper names are all kept. */
  lemma {:induction false} ProperKeepsAll(cs: seq<string>)
    requires forall i :: 0 <= i < |cs| ==> cs[i] != "" && cs[i] != "."
    ensures Proper(cs) == cs
    decreases |cs|
  {
    if cs != [] {
      ProperKeepsAll(cs[1..]);
      assert cs == [cs[0]] + cs[1..];
    }
  }

  /** `/cs[0]/.../x/b` is the absolute join of `cs + [x, b]`. */
  lemma {:induction false} SiblingJoin(cs: seq<string>, x: string, b: string)
    requires cs != []
    ensures "/" + Join(cs, "/") + "/" + x + "/" + b == "/" + Join(cs + [x, b], "/")
  {
    JoinAppend(cs, [x, b], "/");
    assert [x, b][1..] == [b];
    assert Join([x, b], "/") == x + "/" + b;
  }

  /** The components of `/cs[0]/.../x/b`. */
  lemma SiblingComponents(cs: seq<string>, x: string, b: string)
    requires cs != [] && forall i :: 0 <= i < |cs| ==> cs[i] != "" && cs[i] != "." && '/' !in cs[i]
    requires x != "" && x != "." && '/' !in x
    requires b != "" && b != "." && '/' !in b
    ensures Components("/" + Join(cs, "/") + "/" + x + "/" + b) == cs + [x, b]
  {
    var cx := cs + [x, b];
    SiblingJoin(cs, x, b);
    assert forall i :: 0 <= i < |cx| ==> cx[i] != "" && cx[i] != "." && '/' !in cx[i] by {
      forall i | 0 <= i < |cx| ensures cx[i] != "" && cx[i] != "." && '/' !in cx[i] {
        if i >= |cs| { assert cx[i] == [x, b][i - |cs|]; }
      }
    }
    AbsComponents(cx);
  }

  /** `commonpath` of two absolute paths. */
  lemma CommonPathOfTwo(p: string, q: string)
    requires IsAbs(p) && IsAbs(q)
    ensures CommonPath([p, q]) == Ok("/" + Join(CommonPrefix(Components(p), Components(q)), "/"))
  {
    var paths := [p, q];
    assert !exists i :: 0 <= i < |paths| && IsAbs(paths[i]) != IsAbs(paths[0]) by {
      forall i | 0 <= i < |paths| ensures IsAbs(paths[i]) {}
    }
    var css := seq(|paths|, i requires 0 <= i < |paths| => Components(paths[i]));
    assert css == [Components(p), Components(q)];
    CommonAllOfTwo(Components(p), Components(q));
  }

  /** The common prefix of two lists is their `CommonPrefix`. */
  lemma CommonAllOfTwo(a: seq<string>, b: seq<string>)
    ensures CommonAll([a, b]) == CommonPrefix(a, b)
  {
    var css := [a, b];
    assert css[..1] == [a];
    assert CommonAll(css[..1]) == a;
  }

  /** The names of two paths with common directory `c`. */
  lemma DiffNamesOfTwo(p: string, q: string, c: string)
    requires CommonPath([p, q]) == Ok(c)
    ensures DiffNames([p, q]) == Ok([DiffName(p, c), DiffName(q, c)])
  {
    var paths := [p, q];
    var ns := seq(|paths|, i requires 0 <= i < |paths| => DiffName(paths[i], c));
    assert ns[0] == DiffName(p, c) && ns[1] == DiffName(q, c);
    assert ns == [DiffName(p, c), DiffName(q, c)];
  }

  /** Files `cs/x/b` and `cs/y/b`: every component is a proper name without `/`,
      and the two directories `x` and `y` differ. */
  predicate SiblingNames(cs: seq<string>, x: string, y: string, b: string) {
    && cs != [] && (forall i :: 0 <= i < |cs| ==> cs[i] != "" && cs[i] != "." && '/' !in cs[i])
    && x != y
    && x != "" && x != "." && '/' !in x && y != "" && y != "." && '/' !in y
    && b != "" && b != "." && '/' !in b
  }

  /** The common directory of two files in sibling directories is their parent. */
  lemma SiblingCommonPath(cs: seq<string>, x: string, y: string, b: string)
    requires SiblingNames(cs, x, y, b)
    ensures CommonPath([InSibling(cs, x, b), InSibling(cs, y, b)]) == Ok("/" + Join(cs, "/"))
  {
    SiblingCommonComponents(cs, x, y, b);
    SiblingPathFromComponents(cs, x, y, b);
  }

  /** The components of the two files share exactly `cs`. */
  lemma SiblingCommonComponents(cs: seq<string>, x: string, y: string, b: string)
    requires SiblingNames(cs, x, y, b)
    ensures CommonPrefix(Components(InSibling(cs, x, b)), Components(InSibling(cs, y, b))) == cs
  {
    SiblingComponents(cs, x, b);
    SiblingComponents(cs, y, b);
    SiblingPrefix(cs, x, y, b);
  }

  /** Two absolute files whose components share exactly `cs` have `/cs` as common path. */
  lemma SiblingPathFromComponents(cs: seq<string>, x: string, y: string, b: string)
    requires CommonPrefix(Components(InSibling(cs, x, b)), Components(InSibling(cs, y, b))) == cs
    ensures CommonPath([InSibling(cs, x, b), InSibling(cs, y, b)]) == Ok("/" + Join(cs, "/"))
  {
    var p, q := InSibling(cs, x, b), InSibling(cs, y, b);
    assert p[0] == '/' && q[0] == '/';
    CommonPathOfTwoIs(p, q, cs);
  }

  /** `commonpath` of two absolute paths whose common components are `cs`. */
  lemma CommonPathOfTwoIs(p: string, q: string, cs: seq<string>)
    requires IsAbs(p) && IsAbs(q) && CommonPrefix(Components(p), Components(q)) == cs
    ensures CommonPath([p, q]) == Ok("/" + Join(cs, "/"))
  {
    CommonPathOfTwo(p, q);
  }

  /** Lists that agree up to `cs` and then differ have `cs` as common prefix. */
  lemma SiblingPrefix(cs: seq<string>, x: string, y: string, b: string)
    requires x != y
    ensures CommonPrefix(cs + [x, b], cs + [y, b]) == cs
  {
    var cx, cy := cs + [x, b], cs + [y, b];
    var k := |cs|;
    assert cx[..k] == cs == cy[..k];
    assert cx[k] == x && cy[k] == y;
    CommonPrefixIs(cx, cy, k);
  }

  /** The path `/cs[0]/.../cs[n-1]/x/b`. */
  function InSibling(cs: seq<string>, x: string, b: string): string {
    "/" + Join(cs, "/") + "/" + x + "/" + b
  }

  /** Two files with the same base name in sibling directories `x` and `y` under
      `/cs[0]/.../cs[n-1]` are named `x` and `y`; for example `/a/b/x/COLVAR` and
      `/a/b/y/COLVAR` give `x` and `y`. */
  lemma SiblingDirectories(cs: seq<string>, x: string, y: string, b: string)
    requires SiblingNames(cs, x, y, b)
    ensures DiffNames([InSibling(cs, x, b), InSibling(cs, y, b)]) == Ok([x, y])
  {
    var c := "/" + Join(cs, "/");
    SiblingCommonPath(cs, x, y, b);
    DiffNamesOfTwo(c + "/" + x + "/" + b, c + "/" + y + "/" + b, c);
    DiffNameOf(c, x, b);
    DiffNameOf(c, y, b);
  }

  /** Every name, in path order: when each path is `c/d/b` for the common path `c`,
      a directory name `d` and a base name `b`, neither holding `/`, the names are
      the directories `d`. */
  lemma DiffNamesInDirectories(paths: seq<string>, c: string, ds: seq<string>, bs: seq<string>)
    requires CommonPath(paths) == Ok(c) && IsAbs(c)
    requires |ds| == |paths| && |bs| == |paths|
    requires forall i :: 0 <= i < |paths| ==>
      paths[i] == c + "/" + ds[i] + "/" + bs[i] && '/' !in ds[i] && '/' !in bs[i]
    ensures DiffNames(paths) == Ok(ds)
  {
    var ns := DiffNames(paths).value;
    assert |ns| == |ds|;
    forall i | 0 <= i < |paths|
      ensures ns[i] == ds[i]
    {
      assert ns[i] == DiffName(paths[i], c);
      DiffNameOf(c, ds[i], bs[i]);
    }
    assert ns == ds;
  }

  /** `commonpath` of three absolute paths. */
  lemma CommonPathOfThree(p: string, q: string, r: string)
    requires IsAbs(p) && IsAbs(q) && IsAbs(r)
    ensures CommonPath([p, q, r])
         == Ok("/" + Join(CommonPrefix(CommonPrefix(Components(p), Components(q)), Components(r)), "/"))
  {
    var paths := [p, q, r];
    assert !exists i :: 0 <= i < |paths| && IsAbs(paths[i]) != IsAbs(paths[0]) by {
      forall i | 0 <= i < |paths| ensures IsAbs(paths[i]) {}
    }
    var css := seq(|paths|, i requires 0 <= i < |paths| => Components(paths[i]));
    assert css == [Components(p), Components(q), Components(r)];
    assert css[..2] == [Components(p), Components(q)];
    CommonAllOfTwo(Components(p), Components(q));
  }

  /** The names need not be distinct: two files in one directory `x`, next to a
      file in a sibling directory `y`, are both named `x`. */
  lemma SameDirectorySameName(cs: seq<string>, x: string, y: string, b1: string, b2: string)
    requires SiblingNames(cs, x, y, b1) && SiblingNames(cs, x, y, b2) && b1 != b2
    ensures InSibling(cs, x, b1) != InSibling(cs, x, b2)
    ensures DiffNames([InSibling(cs, x, b1), InSibling(cs, x, b2), InSibling(cs, y, b1)]) == Ok([x, x, y])
  {
    var c := "/" + Join(cs, "/");
    var p, q, r := InSibling(cs, x, b1), InSibling(cs, x, b2), InSibling(cs, y, b1);
    ThreeCommonPath(cs, x, y, b1, b2);
    DiffNamesInDirectories([p, q, r], c, [x, x, y], [b1, b2, b1]);
  }

  /** `cs/x/b1`, `cs/x/b2` and `cs/y/b1` are distinct and have `cs` as common path. */
  lemma ThreeCommonPath(cs: seq<string>, x: string, y: string, b1: string, b2: string)
    requires SiblingNames(cs, x, y, b1) && SiblingNames(cs, x, y, b2) && b1 != b2
    ensures InSibling(cs, x, b1) != InSibling(cs, x, b2)
    ensures CommonPath([InSibling(cs, x, b1), InSibling(cs, x, b2), InSibling(cs, y, b1)]) == Ok("/" + Join(cs, "/"))
  {
    var p, q, r := InSibling(cs, x, b1), InSibling(cs, x, b2), InSibling(cs, y, b1);
    SiblingComponents(cs, x, b1);
    SiblingComponents(cs, x, b2);
    SiblingComponents(cs, y, b1);
    ThreePrefix(cs, x, y, b1, b2);
    assert (cs + [x, b1])[|cs| + 1] != (cs + [x, b2])[|cs| + 1];
    assert p[0] == '/' && q[0] == '/' && r[0] == '/';
    CommonPathOfThree(p, q, r);
  }

  /** The component lists of the three files share exactly `cs`. */
  lemma ThreePrefix(cs: seq<string>, x: string, y: string, b1: string, b2: string)
    requires x != y && b1 != b2
    ensures CommonPrefix(CommonPrefix(cs + [x, b1], cs + [x, b2]), cs + [y, b1]) == cs
  {
    var k := |cs|;
    var cp, cq, cr := cs + [x, b1], cs + [x, b2], cs + [y, b1];
    assert cp[..k + 1] == cs + [x] == cq[..k + 1] && cp[k + 1] == b1 && cq[k + 1] == b2;
    CommonPrefixIs(cp, cq, k + 1);
    assert (cs + [x])[..k] == cs == cr[..k] && (cs + [x])[k] == x && cr[k] == y;
    CommonPrefixIs(cs + [x], cr, k);
  }

  /** The common prefix is the first `k` components when they agree and the next
      ones differ. */
  lemma {:induction false} CommonPrefixIs(a: seq<string>, b: seq<string>, k: nat)
    requires k < |a| && k < |b| && a[..k] == b[..k] && a[k] != b[k]
    ensures CommonPrefix(a, b) == a[..k]
    decreases k
  {
    if k > 0 {
      assert a[1..][..k - 1] == a[1..k] == b[1..k] == b[1..][..k - 1];
      assert a[0] == a[..k][0] == b[..k][0] == b[0];
      CommonPrefixIs(a[1..], b[1..], k - 1);
      assert a[..k] == [a[0]] + a[1..][..k - 1];
    }
  }

  /** Mixing absolute and relative paths makes `commonpath`, and so the names,
      fail with `ValueError`. */
  lemma MixedPaths(p: string, q: string)
    requires IsAbs(p) && !IsAbs(q)
    ensures DiffNames([p, q]) == Err(ValueError(MsgMixedPaths))
    ensures DiffNames([q, p]) == Err(ValueError(MsgMixedPaths))
  {
    assert IsAbs([p, q][1]) != IsAbs([p, q][0]);
    assert IsAbs([q, p][1]) != IsAbs([q, p][0]);
  }
}
