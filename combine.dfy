/** How `DataExtractor.extract` and `DataExtractor.header` of
    `simulation_visualizer/file/extractor.py` combine the per-file results of
    several files: the `parallel` header (all columns, sorted and without
    repetitions, and the `y` suggestions of every file shifted behind the columns
    of the files before it) and the `merge` data (each frame labelled with a
    `color` column). */
module Combine {
  import opened Errors
  import Plugin
  import Utils

  // ---------------------------------------------------------------------------
  // `sorted(list(set(columns)))`

  /** Python's `<` on `str`: lexicographic by code point, a proper prefix first. */
  predicate StrLess(a: string, b: string) {
    if a == [] then b != []
    else if b == [] then false
    else if a[0] != b[0] then a[0] < b[0]
    else StrLess(a[1..], b[1..])
  }

  /** `StrLess` is a strict total order. */
  lemma {:induction false} StrLessStrict(a: string, b: string)
    ensures !StrLess(a, a)
    ensures StrLess(a, b) ==> !StrLess(b, a)
    ensures a != b ==> StrLess(a, b) || StrLess(b, a)
  {
    if a != [] {
      StrLessStrict(a[1..], a[1..]);
      if b != [] {
        StrLessStrict(a[1..], b[1..]);
        if a[0] == b[0] && a[1..] == b[1..] {
          assert a == [a[0]] + a[1..] && b == [b[0]] + b[1..];
        }
      }
    }
  }

  lemma {:induction false} StrLessTrans(a: string, b: string, c: string)
    requires StrLess(a, b) && StrLess(b, c)
    ensures StrLess(a, c)
  {
    if a != [] && a[0] == b[0] && b[0] == c[0] {
      StrLessTrans(a[1..], b[1..], c[1..]);
    }
  }

  /** Ascending without repetitions. */
  predicate StrictlySorted(xs: seq<string>) {
    forall i, j :: 0 <= i < j < |xs| ==> StrLess(xs[i], xs[j])
  }

  /** How many elements of a sorted list are below `x`. */
  function InsertPos(x: string, xs: seq<string>): (p: nat)
    ensures p <= |xs|
    ensures forall k :: 0 <= k < p ==> StrLess(xs[k], x)
    ensures p < |xs| ==> !StrLess(xs[p], x)
  {
    if xs == [] || !StrLess(xs[0], x) then 0 else 1 + InsertPos(x, xs[1..])
  }

  /** Adding one element to a sorted set. */
  function AddSorted(x: string, xs: seq<string>): (r: seq<string>)
    requires StrictlySorted(xs)
    ensures StrictlySorted(r)
    ensures forall s :: s in r <==> s in xs || s == x
  {
    var p := InsertPos(x, xs);
    if p < |xs| && xs[p] == x then xs
    else
      var r := xs[..p] + [x] + xs[p..];
      assert forall s :: s in r <==> s in xs[..p] || s == x || s in xs[p..];
      assert xs == xs[..p] + xs[p..];
      AddSortedOrder(x, xs, p);
      r
  }

  lemma AddSortedOrder(x: string, xs: seq<string>, p: nat)
    requires StrictlySorted(xs) && p <= |xs|
    requires forall k :: 0 <= k < p ==> StrLess(xs[k], x)
    requires p < |xs| ==> !StrLess(xs[p], x) && xs[p] != x
    ensures StrictlySorted(xs[..p] + [x] + xs[p..])
  {
    var r := xs[..p] + [x] + xs[p..];
    forall k | p <= k < |xs|
      ensures StrLess(x, xs[k])
    {
      StrLessStrict(x, xs[p]);
      if k > p {
        StrLessTrans(x, xs[p], xs[k]);
      }
    }
    forall i, j | 0 <= i < j < |r|
      ensures StrLess(r[i], r[j])
    {
      if j < p {
        assert r[i] == xs[i] && r[j] == xs[j];
      } else if j == p {
        assert r[i] == xs[i] && r[j] == x;
      } else if i < p {
        assert r[i] == xs[i] && r[j] == xs[j - 1];
        StrLessTrans(xs[i], x, xs[j - 1]);
      } else if i == p {
        assert r[i] == x && r[j] == xs[j - 1];
      } else {
        assert r[i] == xs[i - 1] && r[j] == xs[j - 1];
      }
    }
  }

  /** `sorted(list(set(xs)))` */
  function SortedUnique(xs: seq<string>): (r: seq<string>)
    ensures StrictlySorted(r)
    ensures forall s :: s in r <==> s in xs
  {
    if xs == [] then []
    else
      var r := AddSorted(xs[|xs| - 1], SortedUnique(xs[..|xs| - 1]));
      assert xs == xs[..|xs| - 1] + [xs[|xs| - 1]];
      r
  }

  /** A strictly sorted list is determined by its elements: whatever the order of
      `xs`, `SortedUnique(xs)` is the one sorted list of its distinct elements. */
  lemma {:induction false} SortedSetUnique(a: seq<string>, b: seq<string>)
    requires StrictlySorted(a) && StrictlySorted(b)
    requires forall s :: s in a <==> s in b
    ensures a == b
    decreases |a|
  {
    if a != [] {
      assert a[0] in b;
    }
    if b != [] {
      assert b[0] in a;
    }
    if a != [] && b != [] {
      var m :| 0 <= m < |b| && b[m] == a[0];
      var n :| 0 <= n < |a| && a[n] == b[0];
      var a0, b0 := a[0], b[0];
      StrLessStrict(a0, b0);
      assert b0 == a0 || StrLess(b0, a0);
      assert a0 == b0 || StrLess(a0, b0);
      assert a[0] == b[0];
      forall s
        ensures s in a[1..] <==> s in b[1..]
      {
        if s in a[1..] {
          var i :| 0 <= i < |a| - 1 && a[1..][i] == s;
          StrLessStrict(a[0], s);
          assert s in a && s in b;
          var j :| 0 <= j < |b| && b[j] == s;
          assert StrLess(b[0], s) && j != 0;
          assert b[1..][j - 1] == s;
        }
        if s in b[1..] {
          var j :| 0 <= j < |b| - 1 && b[1..][j] == s;
          StrLessStrict(b[0], s);
          assert s in b && s in a;
          var i :| 0 <= i < |a| && a[i] == s;
          assert StrLess(a[0], s) && i != 0;
          assert a[1..][i - 1] == s;
        }
      }
      SortedSetUnique(a[1..], b[1..]);
      assert a == [a[0]] + a[1..] && b == [b[0]] + b[1..];
    }
  }

  /** The order of the input never matters, nor do repetitions. */
  lemma SortedUniqueSameElements(xs: seq<string>, ys: seq<string>)
    requires forall s :: s in xs <==> s in ys
    ensures SortedUnique(xs) == SortedUnique(ys)
  {
    SortedSetUnique(SortedUnique(xs), SortedUnique(ys));
  }

  // ---------------------------------------------------------------------------
  // The `parallel` header

  /** `columns.extend(df_cols)` over all headers. */
  function Concat(hs: seq<Plugin.Header>): (cs: seq<string>)
    ensures hs != [] ==> |cs| >= |hs[0].columns| && cs[..|hs[0].columns|] == hs[0].columns
  {
    if hs == [] then []
    else
      var cs := Concat(hs[..|hs| - 1]) + hs[|hs| - 1].columns;
      assert |hs| > 1 ==> hs[..|hs| - 1][0] == hs[0];
      cs
  }

  /** Where the columns of header `i` start in `Concat(hs)`: the value of `shift`
      when the loop reaches it. */
  function Offset(hs: seq<Plugin.Header>, i: nat): nat
    requires i <= |hs|
  {
    |Concat(hs[..i])|
  }

  /** `[s + shift for s in ys]` */
  function Shift(ys: seq<nat>, shift: nat): (r: seq<nat>)
    ensures |r| == |ys| && forall k :: 0 <= k < |ys| ==> r[k] == ys[k] + shift
  {
    seq(|ys|, k requires 0 <= k < |ys| => ys[k] + shift)
  }

  /** The `y` suggestions of headers 1 onwards, each shifted by its offset. */
  function ShiftedY(hs: seq<Plugin.Header>): seq<nat> {
    if |hs| <= 1 then []
    else ShiftedY(hs[..|hs| - 1]) + Shift(hs[|hs| - 1].suggest.y, |Concat(hs[..|hs| - 1])|)
  }

  /** The starting suggestion of the loop. */
  const Zeros := Plugin.Suggest([0], [0], [0], [0])

  /** The suggestion the `parallel` header ends with: the first file's, with the
      shifted `y` suggestions of the others appended. */
  function ParallelSuggest(hs: seq<Plugin.Header>): Plugin.Suggest {
    if hs == [] then Zeros
    else hs[0].suggest.(y := hs[0].suggest.y + ShiftedY(hs))
  }

  /** The loop of `header(mode="parallel")` followed by `sorted(list(set(...)))`. */
  method ParallelHeader(hs: seq<Plugin.Header>) returns (h: Plugin.Header)
    ensures h == Plugin.Header(SortedUnique(Concat(hs)), ParallelSuggest(hs))
  {
    var columns: seq<string> := [];
    var suggest := Zeros;
    var shift := 0;
    var i := 0;
    while i < |hs|
      invariant i <= |hs|
      invariant columns == Concat(hs[..i]) && shift == |columns|
      invariant suggest == ParallelSuggest(hs[..i])
    {
      assert hs[..i + 1][..i] == hs[..i];
      columns := columns + hs[i].columns;
      if i == 0 {
        suggest := hs[0].suggest;
      } else {
        suggest := suggest.(y := suggest.y + Shift(hs[i].suggest.y, shift));
      }
      shift := shift + |hs[i].columns|;
      i := i + 1;
    }
    assert hs[..|hs|] == hs;
    return Plugin.Header(SortedUnique(columns), suggest);
  }

  /** Column `e` of header `i` sits at `Offset(hs, i) + e` of the concatenation. */
  lemma {:induction false} ConcatAt(hs: seq<Plugin.Header>, i: nat, e: nat)
    requires i < |hs| && e < |hs[i].columns|
    ensures Offset(hs, i) + e < |Concat(hs)|
    ensures Concat(hs)[Offset(hs, i) + e] == hs[i].columns[e]
    decreases |hs|
  {
    var init := hs[..|hs| - 1];
    if i < |hs| - 1 {
      ConcatAt(init, i, e);
      assert init[..i] == hs[..i] && init[i] == hs[i];
    } else {
      assert init == hs[..i];
    }
  }

  /** `Concat` of a prefix is a prefix of `Concat`. */
  lemma {:induction false} ConcatPrefix(hs: seq<Plugin.Header>, i: nat)
    requires i <= |hs|
    ensures |Concat(hs[..i])| <= |Concat(hs)|
    decreases |hs|
  {
    if i < |hs| {
      ConcatPrefix(hs[..|hs| - 1], i);
      assert hs[..|hs| - 1][..i] == hs[..i];
    } else {
      assert hs[..i] == hs;
    }
  }

  /** Every `y` suggestion in the result points into the concatenated columns when
      every file's own suggestions fit its own columns; `x`, `z` and `t` are the
      first file's. */
  lemma {:induction false} ParallelSuggestFits(hs: seq<Plugin.Header>)
    requires hs != []
    requires forall i :: 0 <= i < |hs| ==> Plugin.SuggestFits(hs[i].suggest, |hs[i].columns|)
    ensures Plugin.AllBelow(ParallelSuggest(hs).y, |Concat(hs)|)
    ensures ParallelSuggest(hs).x == hs[0].suggest.x && ParallelSuggest(hs).z == hs[0].suggest.z
    ensures ParallelSuggest(hs).t == hs[0].suggest.t
  {
    ShiftedYFits(hs);
    var y0 := hs[0].suggest.y;
    ConcatPrefix(hs, 1);
    assert hs[..1] == [hs[0]] && Concat(hs[..1]) == hs[0].columns by {
      assert [hs[0]][..0] == [];
    }
    var y := ParallelSuggest(hs).y;
    assert y == y0 + ShiftedY(hs);
    forall k | 0 <= k < |y|
      ensures y[k] < |Concat(hs)|
    {
      if k < |y0| {
        assert y[k] == y0[k] < |hs[0].columns|;
      } else {
        assert y[k] == ShiftedY(hs)[k - |y0|];
      }
    }
  }

  lemma {:induction false} ShiftedYFits(hs: seq<Plugin.Header>)
    requires forall i :: 0 <= i < |hs| ==> Plugin.SuggestFits(hs[i].suggest, |hs[i].columns|)
    ensures Plugin.AllBelow(ShiftedY(hs), |Concat(hs)|)
    decreases |hs|
  {
    if |hs| > 1 {
      var init := hs[..|hs| - 1];
      var last := hs[|hs| - 1];
      ShiftedYFits(init);
      var shifted := Shift(last.suggest.y, |Concat(init)|);
      assert Concat(hs) == Concat(init) + last.columns;
      assert Plugin.AllBelow(shifted, |Concat(hs)|) by {
        forall k | 0 <= k < |shifted| ensures shifted[k] < |Concat(hs)| {
          assert last.suggest.y[k] < |last.columns|;
        }
      }
    }
  }

  /** Each shifted suggestion names, in the concatenation, the very column it named
      in its own file: index `k` of file `i`'s `y` list becomes
      `Offset(hs, i) + y[k]`. */
  lemma {:induction false} ShiftedYNamesSameColumn(hs: seq<Plugin.Header>, i: nat, k: nat)
    requires 0 < i < |hs| && k < |hs[i].suggest.y| && hs[i].suggest.y[k] < |hs[i].columns|
    ensures var y := hs[i].suggest.y[k] + Offset(hs, i);
      y in ShiftedY(hs) && y < |Concat(hs)| && Concat(hs)[y] == hs[i].columns[hs[i].suggest.y[k]]
    decreases |hs|
  {
    ConcatAt(hs, i, hs[i].suggest.y[k]);
    var init := hs[..|hs| - 1];
    if i < |hs| - 1 {
      ShiftedYNamesSameColumn(init, i, k);
      assert init[..i] == hs[..i] && init[i] == hs[i];
    } else {
      assert init == hs[..i];
      assert Shift(hs[i].suggest.y, Offset(hs, i))[k] == hs[i].suggest.y[k] + Offset(hs, i);
    }
  }

  /** The columns are returned sorted while the suggestions index the unsorted
      concatenation: for a first file with column `x` and a second with columns
      `b`, `a` and suggestion `y = [1]`, the shifted index 2 names `a` in the
      concatenation but `x` in the returned list. */
  lemma ParallelSuggestIndexesUnsortedColumns()
    ensures var hs := [Plugin.Header(["x"], Plugin.Suggest([0], [0], [0], [0])),
                       Plugin.Header(["b", "a"], Plugin.Suggest([0], [1], [0], [0]))];
      && ParallelSuggest(hs).y == [0, 2]
      && Concat(hs)[2] == "a"
      && SortedUnique(Concat(hs)) == ["a", "b", "x"]
  {
    var hs := [Plugin.Header(["x"], Plugin.Suggest([0], [0], [0], [0])),
               Plugin.Header(["b", "a"], Plugin.Suggest([0], [1], [0], [0]))];
    assert hs[..1] == [hs[0]];
    assert [hs[0]][..0] == [];
    assert Concat(hs[..1]) == ["x"];
    assert Concat(hs) == ["x", "b", "a"];
    assert ShiftedY(hs) == [2];
    var sorted := ["a", "b", "x"];
    assert StrLess("a", "b") && StrLess("b", "x") && StrLess("a", "x");
    assert StrictlySorted(sorted);
    assert forall s :: s in sorted <==> s in Concat(hs);
    SortedSetUnique(SortedUnique(Concat(hs)), sorted);
  }

  // ---------------------------------------------------------------------------
  // The `merge` data

  /** A data frame, reduced to what the combination touches: its column labels, its
      number of rows and the value of its `color` column when one was assigned. */
  datatype Frame = Frame(columns: seq<string>, rows: nat, color: Option<string>)

  const ColorColumn := "color"

  /** `d["color"] = n`: the column is added at the end when missing, and every row
      gets the value `n`. */
  function Colored(f: Frame, n: string): (g: Frame)
    ensures ColorColumn in g.columns && g.color == Some(n) && g.rows == f.rows
    ensures forall c :: c in g.columns <==> c in f.columns || c == ColorColumn
    ensures ColorColumn in f.columns ==> g.columns == f.columns
    ensures ColorColumn !in f.columns ==> g.columns == f.columns + [ColorColumn]
  {
    var cs := if ColorColumn in f.columns then f.columns else f.columns + [ColorColumn];
    Frame(cs, f.rows, Some(n))
  }

  /** Assigning the column twice keeps the second value and one `color` column. */
  lemma ColoredTwice(f: Frame, n: string, m: string)
    ensures Colored(Colored(f, n), m) == Colored(f, m)
  {
  }

  /** The frames after `for d, n in zip(data, names): d["color"] = n`: frames past
      the shorter of the two lists are left alone. */
  function ColorAll(data: seq<Frame>, names: seq<string>): (r: seq<Frame>)
    ensures |r| == |data|
    ensures forall i :: 0 <= i < |data| && i < |names| ==> r[i] == Colored(data[i], names[i])
    ensures forall i :: |names| <= i < |data| ==> r[i] == data[i]
  {
    seq(|data|, i requires 0 <= i < |data| => if i < |names| then Colored(data[i], names[i]) else data[i])
  }

  /** The labelling loop over the value of every frame. */
  method ColorFrames(data: seq<Frame>, names: seq<string>) returns (r: seq<Frame>)
    ensures r == ColorAll(data, names)
  {
    r := data;
    var i := 0;
    while i < |data| && i < |names|
      invariant i <= |data| && i <= |names| && |r| == |data|
      invariant forall k :: 0 <= k < i ==> r[k] == Colored(data[k], names[k])
      invariant forall k :: i <= k < |data| ==> r[k] == data[k]
    {
      r := r[i := Colored(r[i], names[i])];
      i := i + 1;
    }
  }

  /** The column lists of the frames. */
  function ColumnsOf(data: seq<Frame>): (cs: seq<seq<string>>)
    ensures |cs| == |data| && forall i :: 0 <= i < |data| ==> cs[i] == data[i].columns
  {
    seq(|data|, i requires 0 <= i < |data| => data[i].columns)
  }

  /** `all_equal(cols) > 1`: `all_equal` gives a `bool`, which is never greater than
      one, so frames with different columns are merged anyway. */
  function MergeRejects(data: seq<Frame>): (r: bool)
    ensures !r
  {
    (if Utils.AllEqual(ColumnsOf(data)) then 1 else 0) > 1
  }

  /** Frames with different columns pass the check. */
  lemma DifferentColumnsNotRejected(f: Frame, g: Frame)
    requires f.columns != g.columns
    ensures !Utils.AllEqual(ColumnsOf([f, g])) && !MergeRejects([f, g])
  {
    Utils.AllEqualMeans(ColumnsOf([f, g]));
    assert ColumnsOf([f, g])[0] != ColumnsOf([f, g])[1];
  }
}
