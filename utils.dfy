/** Helpers of `simulation_visualizer/utils.py`: `all_equal`, the parsing of the
    user file in `get_auth`, the value normalisation `_getdict` and the key list of
    `get_qstat_col_names`, and the size summation of `get_file_size`. */
module Utils {
  import opened Text
  import opened Errors

  /** The number of maximal runs of equal consecutive elements: the groups
      `itertools.groupby` produces. */
  function Runs<T(==)>(xs: seq<T>): (n: nat)
    ensures n <= |xs|
    ensures xs != [] ==> n >= 1
  {
    if xs == [] then 0
    else Runs(xs[..|xs| - 1]) + (if |xs| == 1 || xs[|xs| - 1] != xs[|xs| - 2] then 1 else 0)
  }

  /** `all_equal(iterable)`: `groupby` yields at most one group. The result is a
      `bool`, never a count. */
  function AllEqual<T(==)>(xs: seq<T>): (r: bool)
    ensures |xs| <= 1 ==> r
    ensures r && |xs| >= 2 ==> xs[|xs| - 1] == xs[|xs| - 2]
  {
    Runs(xs) <= 1
  }

  /** `all_equal` holds exactly when every two elements are equal, and so for the
      empty sequence. */
  lemma {:induction false} AllEqualMeans<T>(xs: seq<T>)
    ensures AllEqual(xs) <==> forall i, j :: 0 <= i < |xs| && 0 <= j < |xs| ==> xs[i] == xs[j]
    decreases |xs|
  {
    if |xs| >= 2 {
      var init := xs[..|xs| - 1];
      AllEqualMeans(init);
      assert forall i :: 0 <= i < |init| ==> init[i] == xs[i];
      if AllEqual(xs) {
        assert Runs(init) <= 1;
        assert xs[|xs| - 1] == xs[|xs| - 2];
        forall i, j | 0 <= i < |xs| && 0 <= j < |xs|
          ensures xs[i] == xs[j]
        {
          var last := |xs| - 1;
          assert xs[last] == init[last - 1];
        }
      } else {
        var i, j := 0, |xs| - 1;
        if Runs(init) > 1 {
          var a, b :| 0 <= a < |init| && 0 <= b < |init| && init[a] != init[b];
          assert xs[a] != xs[b];
        } else {
          assert xs[|xs| - 1] != xs[|xs| - 2];
        }
      }
    }
  }

  /** A record of `data/users.txt`, `user:password`. */
  function AuthEntry(line: string): (r: Result<(string, string)>)
    ensures r.Err? <==> ':' !in line
    ensures r.Ok? ==>
      var i := IndexOf(line, ':');
      var rest := line[i + 1..];
      r.value == (line[..i], rest[..IndexOf(rest, ':')])
  {
    var fields := SplitOn(line, ':');
    if |fields| < 2 then Err(IndexError)
    else
      assert fields[1] == SplitOn(line[IndexOf(line, ':') + 1..], ':')[0];
      FirstField(line[IndexOf(line, ':') + 1..], ':');
      Ok((fields[0], fields[1]))
  }

  /** The first field of `s.split(c)` runs up to the first `c`. */
  lemma FirstField(s: string, c: char)
    ensures SplitOn(s, c)[0] == s[..IndexOf(s, c)]
  {
    if IndexOf(s, c) == |s| {
      assert s[..|s|] == s;
    }
  }

  /** `get_auth()` on the lines of the user file: each line's first `:`-field maps
      to its second; a later line for the same user replaces an earlier one, and a
      line without `:` raises `IndexError`. */
  function GetAuth(lines: seq<string>): (r: Result<map<string, string>>)
    ensures r.Err? <==> exists i :: 0 <= i < |lines| && ':' !in lines[i]
    decreases |lines|
  {
    if lines == [] then Ok(map[])
    else
      match GetAuth(lines[..|lines| - 1])
      case Err(e) => Err(e)
      case Ok(m) =>
        match AuthEntry(lines[|lines| - 1])
        case Err(e) => Err(e)
        case Ok(kv) => Ok(m[kv.0 := kv.1])
  }

  /** The user a line names, when it has a `:`. */
  function UserOf(line: string): string {
    line[..IndexOf(line, ':')]
  }

  /** A user's entry is the password on the last line naming that user. */
  lemma {:induction false} AuthLastWins(lines: seq<string>, i: nat)
    requires GetAuth(lines).Ok? && i < |lines|
    requires forall j :: i < j < |lines| ==> UserOf(lines[j]) != UserOf(lines[i])
    ensures UserOf(lines[i]) in GetAuth(lines).value
    ensures GetAuth(lines).value[UserOf(lines[i])] == AuthEntry(lines[i]).value.1
    decreases |lines|
  {
    var init := lines[..|lines| - 1];
    assert GetAuth(init).Ok?;
    if i < |lines| - 1 {
      assert init[i] == lines[i];
      forall j | i < j < |init|
        ensures UserOf(init[j]) != UserOf(init[i])
      {
        assert init[j] == lines[j];
      }
      AuthLastWins(init, i);
    }
  }

  /** Every user in the map is named by some line. */
  lemma {:induction false} AuthUsersFromLines(lines: seq<string>)
    requires GetAuth(lines).Ok?
    ensures forall u :: u in GetAuth(lines).value ==> exists i :: 0 <= i < |lines| && UserOf(lines[i]) == u
    decreases |lines|
  {
    if lines != [] {
      var init := lines[..|lines| - 1];
      AuthUsersFromLines(init);
      forall u | u in GetAuth(lines).value
        ensures exists i :: 0 <= i < |lines| && UserOf(lines[i]) == u
      {
        if u != UserOf(lines[|lines| - 1]) {
          var i :| 0 <= i < |init| && UserOf(init[i]) == u;
          assert lines[i] == init[i];
        }
      }
    }
  }

  /** The value normalisation of `_getdict` before `json.loads`: a trailing `,`
      becomes `}`, and a `}` is appended when the value does not end in one. */
  function CloseBrace(value: string): (r: string)
    ensures r != [] && r[|r| - 1] == '}'
    ensures value != [] && value[|value| - 1] == '}' ==> r == value
    ensures value != [] && value[|value| - 1] == ',' ==> r == value[..|value| - 1] + "}"
    ensures (value == [] || (value[|value| - 1] != ',' && value[|value| - 1] != '}')) ==> r == value + "}"
  {
    var v := if value != [] && value[|value| - 1] == ',' then value[..|value| - 1] + "}" else value;
    if v != [] && v[|v| - 1] == '}' then v else v + "}"
  }

  /** Normalising twice is normalising once. */
  lemma CloseBraceIdempotent(value: string)
    ensures CloseBrace(CloseBrace(value)) == CloseBrace(value)
  {
    var r := CloseBrace(value);
    assert r[|r| - 1] == '}';
  }

  /** The option removed from the `BASE` section. */
  const UserAssignedId := "user_assigned_id"

  /** The key list of `get_qstat_col_names` for a section with keys `keys`:
      `user_assigned_id` is popped when present (`KeyError` is swallowed), the
      other keys keep their order. */
  function QstatColNames(keys: seq<string>): (r: seq<string>)
    ensures UserAssignedId !in r
    ensures UserAssignedId !in keys ==> r == keys
    ensures forall k :: k in r <==> k in keys && k != UserAssignedId
  {
    if keys == [] then []
    else if keys[0] == UserAssignedId then QstatColNames(keys[1..])
    else [keys[0]] + QstatColNames(keys[1..])
  }

  /** Pairs of `zip(hosts, paths)`: as many as the shorter list has. */
  function Zip(hosts: seq<string>, paths: seq<string>): (z: seq<(string, string)>)
    ensures |z| == if |hosts| < |paths| then |hosts| else |paths|
    ensures forall i :: 0 <= i < |z| ==> z[i] == (hosts[i], paths[i])
  {
    if hosts == [] || paths == [] then [] else [(hosts[0], paths[0])] + Zip(hosts[1..], paths[1..])
  }

  /** The sizes `stat` reports for the first `n` pairs, or the first missing file. */
  function SizeOf(pairs: seq<(string, string)>, stat: map<(string, string), nat>): (r: Result<nat>)
    ensures r.Err? <==> exists i :: 0 <= i < |pairs| && pairs[i] !in stat
    decreases |pairs|
  {
    if pairs == [] then Ok(0)
    else
      var init := pairs[..|pairs| - 1];
      var last := pairs[|pairs| - 1];
      match SizeOf(init, stat)
      case Err(e) => Err(e)
      case Ok(n) => if last in stat then Ok(n + stat[last]) else Err(FileNotFound(last.1))
  }

  /** `get_file_size(paths, hosts)`, with `c.os.stat(path).st_size` given as the map
      `stat` from (host, path): the total size over `zip(hosts, paths)`, adding a
      group of consecutive pairs on the same host per connection. The number of
      connections opened is returned alongside. */
  method GetFileSize(paths: seq<string>, hosts: seq<string>, stat: map<(string, string), nat>)
    returns (r: Result<nat>, connections: nat)
    ensures r == SizeOf(Zip(hosts, paths), stat)
    ensures r.Ok? ==> connections == Runs(hosts[..|Zip(hosts, paths)|])
  {
    var pairs := Zip(hosts, paths);
    var sizes := 0;
    connections := 0;
    var i := 0;
    while i < |pairs|
      invariant 0 <= i <= |pairs|
      invariant SizeOf(pairs[..i], stat) == Ok(sizes)
      invariant connections == Runs(hosts[..i])
      invariant 0 < i < |pairs| ==> pairs[i].0 != pairs[i - 1].0
    {
      connections := connections + 1;
      var j, total := SumGroup(pairs, i, stat, sizes);
      if total.Err? {
        SizeOfStopsAtMissing(pairs, j, stat);
        return total, connections;
      }
      RunsOfGroup(hosts, i, j);
      i, sizes := j, total.value;
    }
    assert pairs[..i] == pairs;
    r := Ok(sizes);
  }

  /** The inner loop of `get_file_size`: the pairs of one group, those from `i` on
      with the host of pair `i`, are added to `sizes`; the sum stops at the first
      missing file. */
  method SumGroup(pairs: seq<(string, string)>, i: nat, stat: map<(string, string), nat>, sizes: nat)
    returns (j: nat, r: Result<nat>)
    requires i < |pairs| && SizeOf(pairs[..i], stat) == Ok(sizes)
    ensures i < j <= |pairs| && r == SizeOf(pairs[..j], stat)
    ensures forall k :: i <= k < j ==> pairs[k].0 == pairs[i].0
    ensures r.Ok? && j < |pairs| ==> pairs[j].0 != pairs[i].0
  {
    var host := pairs[i].0;
    var total := sizes;
    j := i;
    while j < |pairs| && pairs[j].0 == host
      invariant i <= j <= |pairs|
      invariant SizeOf(pairs[..j], stat) == Ok(total)
      invariant forall k :: i <= k < j ==> pairs[k].0 == host
    {
      var pair := pairs[j];
      SumStep(pairs, j, stat);
      if pair !in stat {
        return j + 1, Err(FileNotFound(pair.1));
      }
      total := total + stat[pair];
      j := j + 1;
    }
    return j, Ok(total);
  }

  /** A group of consecutive equal hosts, starting where the host changes, adds
      one run. */
  lemma {:induction false} RunsOfGroup(hs: seq<string>, i: nat, j: nat)
    requires i < j <= |hs|
    requires i > 0 ==> hs[i] != hs[i - 1]
    requires forall k :: i <= k < j ==> hs[k] == hs[i]
    ensures Runs(hs[..j]) == Runs(hs[..i]) + 1
    decreases j - i
  {
    RunsOfPrefix(hs, j - 1);
    if j - 1 > i {
      assert hs[j - 1] == hs[i] == hs[j - 2];
      RunsOfGroup(hs, i, j - 1);
    }
  }

  /** One more pair: its size is added, or it is the missing file. */
  lemma SumStep(pairs: seq<(string, string)>, j: nat, stat: map<(string, string), nat>)
    requires j < |pairs|
    ensures SizeOf(pairs[..j + 1], stat) ==
      match SizeOf(pairs[..j], stat)
      case Err(e) => Err(e)
      case Ok(n) => if pairs[j] in stat then Ok(n + stat[pairs[j]]) else Err(FileNotFound(pairs[j].1))
  {
    assert pairs[..j + 1][..j] == pairs[..j];
  }

  /** One more host opens a run when it differs from the previous one. */
  lemma RunsOfPrefix(hs: seq<string>, j: nat)
    requires j < |hs|
    ensures Runs(hs[..j + 1]) == Runs(hs[..j]) + (if j == 0 || hs[j] != hs[j - 1] then 1 else 0)
  {
    assert hs[..j + 1][..j] == hs[..j];
  }

  /** The first missing file ends the summation: what follows does not matter. */
  lemma {:induction false} SizeOfStopsAtMissing(pairs: seq<(string, string)>, k: nat, stat: map<(string, string), nat>)
    requires k <= |pairs| && SizeOf(pairs[..k], stat).Err?
    ensures SizeOf(pairs, stat) == SizeOf(pairs[..k], stat)
    decreases |pairs| - k
  {
    if k < |pairs| {
      var next := pairs[..k + 1];
      assert next[..k] == pairs[..k];
      SizeOfStopsAtMissing(pairs, k + 1, stat);
    } else {
      assert pairs[..k] == pairs;
    }
  }
}
