/** The job list `_get_async` of `simulation_visualizer/file/extractor.py` builds
    before submitting: every registered parser paired with every (host, path)
    target, then ordered by how well the parser's expected file name matches the
    path. The similarity score (`rapidfuzz.fuzz.ratio`) is a parameter. */
module Jobs {
  import Plugin

  type Target = (string, string)

  /** One submitted call of `_get_one`. */
  datatype Job = Job(parser: Plugin.ParserClass, target: Target)

  /** `itertools.product(parsers, targets)`: parser-major order. */
  function Product(ps: seq<Plugin.ParserClass>, ts: seq<Target>): (js: seq<Job>)
    ensures |js| == |ps| * |ts|
    ensures forall k :: 0 <= k < |js| ==> js[k].parser in ps && js[k].target in ts
  {
    if ps == [] then []
    else
      var row := seq(|ts|, j requires 0 <= j < |ts| => Job(ps[0], ts[j]));
      var rest := Product(ps[1..], ts);
      MulStep(|ps| - 1, |ts|);
      row + rest
  }

  lemma MulStep(a: nat, b: nat)
    ensures (a + 1) * b == a * b + b
  {
  }

  /** Pair `(ps[i], ts[j])` is job `i * |ts| + j` of the product. */
  lemma {:induction false} ProductAt(ps: seq<Plugin.ParserClass>, ts: seq<Target>, i: nat, j: nat)
    requires i < |ps| && j < |ts|
    ensures i * |ts| + j < |Product(ps, ts)|
    ensures Product(ps, ts)[i * |ts| + j] == Job(ps[i], ts[j])
  {
    MulStep(|ps| - 1, |ts|);
    if i > 0 {
      ProductAt(ps[1..], ts, i - 1, j);
      MulStep(i - 1, |ts|);
      assert Product(ps, ts)[i * |ts| + j] == Product(ps[1..], ts)[(i - 1) * |ts| + j];
    }
  }

  /** The sort key: `fuzz.ratio(parser.expected_filename, path)`. */
  function Key(score: (string, string) -> int, j: Job): int {
    score(j.parser.desc.expectedFilename, j.target.1)
  }

  /** Best-scoring jobs first. */
  predicate Descending(score: (string, string) -> int, js: seq<Job>) {
    forall i, j :: 0 <= i < j < |js| ==> Key(score, js[i]) >= Key(score, js[j])
  }

  /** Where `x` goes: after every job that scores at least as well. */
  function InsertAt(score: (string, string) -> int, x: Job, js: seq<Job>): (p: nat)
    ensures p <= |js|
    ensures forall k :: 0 <= k < p ==> Key(score, js[k]) >= Key(score, x)
    ensures p < |js| ==> Key(score, js[p]) < Key(score, x)
  {
    if js == [] || Key(score, js[0]) < Key(score, x) then 0
    else 1 + InsertAt(score, x, js[1..])
  }

  /** One insertion step of the sort. */
  function Insert(score: (string, string) -> int, x: Job, js: seq<Job>): (r: seq<Job>)
    requires Descending(score, js)
    ensures multiset(r) == multiset(js) + multiset{x}
    ensures Descending(score, r)
  {
    var p := InsertAt(score, x, js);
    assert js == js[..p] + js[p..];
    InsertKeepsOrder(score, x, js, p);
    js[..p] + [x] + js[p..]
  }

  lemma InsertKeepsOrder(score: (string, string) -> int, x: Job, js: seq<Job>, p: nat)
    requires Descending(score, js)
    requires p <= |js|
    requires forall k :: 0 <= k < p ==> Key(score, js[k]) >= Key(score, x)
    requires p < |js| ==> Key(score, js[p]) < Key(score, x)
    ensures Descending(score, js[..p] + [x] + js[p..])
  {
    var r := js[..p] + [x] + js[p..];
    forall i, j | 0 <= i < j < |r|
      ensures Key(score, r[i]) >= Key(score, r[j])
    {
      if j < p {
        assert r[i] == js[i] && r[j] == js[j];
      } else if j == p {
        assert r[i] == js[i] && r[j] == x;
      } else if i < p {
        assert r[i] == js[i] && r[j] == js[j - 1];
      } else if i == p {
        assert r[i] == x && r[j] == js[j - 1];
        assert Key(score, js[p]) >= Key(score, js[j - 1]);
      } else {
        assert r[i] == js[i - 1] && r[j] == js[j - 1];
      }
    }
  }

  /** `targets.sort(key=..., reverse=True)`, as an insertion sort on values. */
  function Sort(score: (string, string) -> int, js: seq<Job>): (r: seq<Job>)
    ensures multiset(r) == multiset(js)
    ensures Descending(score, r)
  {
    if js == [] then []
    else
      var r := Insert(score, js[|js| - 1], Sort(score, js[..|js| - 1]));
      assert js == js[..|js| - 1] + [js[|js| - 1]];
      r
  }

  /** The jobs in submission order. */
  function Jobs(ps: seq<Plugin.ParserClass>, ts: seq<Target>, score: (string, string) -> int): seq<Job> {
    Sort(score, Product(ps, ts))
  }

  /** There are `|ps| * |ts|` jobs, and each job's parser and target come from
      the inputs. */
  lemma JobsFromInputs(ps: seq<Plugin.ParserClass>, ts: seq<Target>, score: (string, string) -> int)
    ensures |Jobs(ps, ts, score)| == |ps| * |ts|
    ensures forall k :: 0 <= k < |Jobs(ps, ts, score)| ==>
      Jobs(ps, ts, score)[k].parser in ps && Jobs(ps, ts, score)[k].target in ts
  {
    var p := Product(ps, ts);
    var js := Sort(score, p);
    assert |js| == |multiset(js)| == |multiset(p)| == |p|;
    forall k | 0 <= k < |js|
      ensures js[k].parser in ps && js[k].target in ts
    {
      assert js[k] in multiset(p);
    }
  }

  /** Every (parser, target) pair of the product is submitted, as often as it
      occurs there. */
  lemma AllPairsSubmitted(ps: seq<Plugin.ParserClass>, ts: seq<Target>, score: (string, string) -> int)
    ensures multiset(Jobs(ps, ts, score)) == multiset(Product(ps, ts))
    ensures forall i, j :: 0 <= i < |ps| && 0 <= j < |ts| ==> Job(ps[i], ts[j]) in Jobs(ps, ts, score)
  {
    forall i, j | 0 <= i < |ps| && 0 <= j < |ts|
      ensures Job(ps[i], ts[j]) in Jobs(ps, ts, score)
    {
      PairSubmitted(ps, ts, score, i, j);
    }
  }

  lemma PairSubmitted(ps: seq<Plugin.ParserClass>, ts: seq<Target>, score: (string, string) -> int, i: nat, j: nat)
    requires i < |ps| && j < |ts|
    ensures Job(ps[i], ts[j]) in Jobs(ps, ts, score)
  {
    var p := Product(ps, ts);
    ProductAt(ps, ts, i, j);
    var k := i * |ts| + j;
    assert p[k] in multiset(p);
    assert p[k] in multiset(Sort(score, p));
  }
}
