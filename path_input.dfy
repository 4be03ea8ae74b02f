/** The list of path selectors in the control tab (`visualize/path_input.py`):
    adding a selector, removing one, counting them, the merge control's
    visibility and the line that names the selected files. */
module PathInput {
  import opened Errors
  import opened Text
  import Utils

  /** A child of the control tab. In the `children` list Dash passes to a
      callback each child is a dict, without `props` or with `props` that may
      carry an `id`. `Component` is an `html.Div` object built during the current
      call: `"props" in element` on it walks the ids of its children and never
      finds `props`, so the id loop skips it until Dash sends it back as a dict. */
  datatype Element = NoProps | Props(id: Option<string>) | Component(name: string)

  /** The marker in the ids of path selectors. */
  const SelectorTag := "path-selector"

  predicate Tagged(id: string) {
    Contains(id, SelectorTag)
  }

  /** Decimal digits of a natural number, as Python formats an `int`. */
  function Decimal(n: nat): (s: string)
    ensures s != [] && forall i :: 0 <= i < |s| ==> IsDigit(s[i])
  {
    if n < 10 then ["0123456789"[n]] else Decimal(n / 10) + ["0123456789"[n % 10]]
  }

  /** `f"{n_clicks}"`: the button's click count, `None` before the first click. */
  function ClicksText(clicks: Option<nat>): string {
    match clicks
    case None => "None"
    case Some(n) => Decimal(n)
  }

  /** The selector `add_host` builds, a component object; only its id matters
      here. */
  function Selector(clicks: Option<nat>): (e: Element)
    ensures e.Component? && Tagged(e.name)
  {
    var id := "path-selector-" + ClicksText(clicks);
    assert OccursAt(id, SelectorTag, 0) by { assert id[..|SelectorTag|] == SelectorTag; }
    Component(id)
  }

  /** How a child reaches the next callback: Dash serialises a component object
      into a dict whose `props` carry its id. */
  function Sent(e: Element): Element {
    match e
    case Component(name) => Props(Some(name))
    case _ => e
  }

  /** The ids of the elements that have `props.id`, in tab order. */
  function Ids(tab: seq<Element>): (ids: seq<string>)
    ensures |ids| <= |tab|
  {
    if tab == [] then []
    else (if tab[0].Props? && tab[0].id.Some? then [tab[0].id.value] else []) + Ids(tab[1..])
  }

  /** How many ids contain the selector marker. */
  function Count(ids: seq<string>): (n: nat)
    ensures n <= |ids|
  {
    if ids == [] then 0 else (if Tagged(ids[0]) then 1 else 0) + Count(ids[1..])
  }

  /** Every element carries an id. */
  predicate AllIdentified(tab: seq<Element>) {
    forall i :: 0 <= i < |tab| ==> tab[i].Props? && tab[i].id.Some?
  }

  lemma {:induction false} IdsAppend(a: seq<Element>, b: seq<Element>)
    ensures Ids(a + b) == Ids(a) + Ids(b)
  {
    if a == [] {
      assert a + b == b;
    } else {
      var h := if a[0].Props? && a[0].id.Some? then [a[0].id.value] else [];
      assert (a + b)[0] == a[0] && (a + b)[1..] == a[1..] + b;
      assert Ids(a + b) == h + Ids(a[1..] + b);
      IdsAppend(a[1..], b);
      assert Ids(a) == h + Ids(a[1..]);
      assert h + (Ids(a[1..]) + Ids(b)) == (h + Ids(a[1..])) + Ids(b);
    }
  }

  lemma {:induction false} CountAppend(a: seq<string>, b: seq<string>)
    ensures Count(a + b) == Count(a) + Count(b)
  {
    if a == [] {
      assert a + b == b;
    } else {
      assert (a + b)[0] == a[0] && (a + b)[1..] == a[1..] + b;
      CountAppend(a[1..], b);
    }
  }

  /** When every element has an id, the ids line up with the elements. */
  lemma {:induction false} IdsOfIdentified(tab: seq<Element>)
    requires AllIdentified(tab)
    ensures |Ids(tab)| == |tab|
    ensures forall i :: 0 <= i < |tab| ==> Ids(tab)[i] == tab[i].id.value
  {
    if tab != [] {
      IdsOfIdentified(tab[1..]);
    }
  }

  /** `get_n_selectors(tab)`: collects the ids in a loop, then counts the tagged ones. */
  method GetNSelectors(tab: seq<Element>) returns (n: nat, ids: seq<string>)
    ensures ids == Ids(tab) && n == Count(ids)
    ensures n <= |ids| <= |tab|
  {
    ids := [];
    var i := 0;
    while i < |tab|
      invariant i <= |tab|
      invariant ids == Ids(tab[..i])
    {
      IdsStep(tab, i);
      match tab[i] {
        case Props(Some(id)) =>
          ids := ids + [id];
        case _ =>
      }
      i := i + 1;
    }
    assert tab[..i] == tab;
    n := Count(ids);
  }

  /** One more element extends the ids by its own id, if it has one. */
  lemma IdsStep(tab: seq<Element>, i: nat)
    requires i < |tab|
    ensures Ids(tab[..i + 1]) == Ids(tab[..i]) + (if tab[i].Props? && tab[i].id.Some? then [tab[i].id.value] else [])
  {
    IdsAppend(tab[..i], [tab[i]]);
    assert tab[..i + 1] == tab[..i] + [tab[i]];
  }

  /** `tab.insert(1, e)`: position 1, or the end of a shorter list. */
  function Inserted(tab: seq<Element>, e: Element): (r: seq<Element>)
    ensures |r| == |tab| + 1
  {
    if tab == [] then [e] else tab[..1] + [e] + tab[1..]
  }

  /** `del tab[k]` */
  function Deleted(tab: seq<Element>, k: nat): (r: seq<Element>)
    requires k < |tab|
    ensures |r| == |tab| - 1
  {
    tab[..k] + tab[k + 1..]
  }

  /** The position of the first tagged id. */
  function FirstTagged(ids: seq<string>): (k: nat)
    ensures k <= |ids|
    ensures forall j :: 0 <= j < k ==> !Tagged(ids[j])
    ensures k < |ids| ==> Tagged(ids[k])
    ensures Count(ids) > 0 ==> k < |ids|
  {
    if ids == [] then 0 else if Tagged(ids[0]) then 0 else 1 + FirstTagged(ids[1..])
  }

  /** What `remove_host` leaves: with more than one selector, the element at the
      tab position equal to the first tagged id's position in the id list is
      deleted; otherwise nothing changes. */
  function Removed(tab: seq<Element>): (r: seq<Element>)
    ensures |r| == |tab| || |r| == |tab| - 1
    ensures r != tab ==> Count(Ids(tab)) > 1
  {
    var ids := Ids(tab);
    if Count(ids) > 1 then Deleted(tab, FirstTagged(ids)) else tab
  }

  /** Which way `change_host` moves the count: up for the add button (and the
      initial call, whose trigger id is empty), down otherwise. */
  function Shift(eventId: string): int {
    if eventId == "add-button" || eventId == "" then 1 else -1
  }

  /** The control tab's `children` list, edited in place. */
  class ControlTab {
    var children: seq<Element>

    constructor (children: seq<Element>)
      ensures this.children == children
    {
      this.children := children;
    }

    /** `add_host(n_clicks, tab)` */
    method AddHost(clicks: Option<nat>)
      modifies this
      ensures children == Inserted(old(children), Selector(clicks))
    {
      var selector := Selector(clicks);
      if children == [] {
        children := [selector];
      } else {
        children := children[..1] + [selector] + children[1..];
      }
    }

    /** `remove_host(tab)`: the search for the first tagged id, then `del`. */
    method RemoveHost()
      modifies this
      ensures children == Removed(old(children))
    {
      var n, ids := GetNSelectors(children);
      if n > 1 {
        var index := 0;
        while !Tagged(ids[index])
          invariant index < |ids| && Count(ids[index..]) == n
          invariant forall j :: 0 <= j < index ==> !Tagged(ids[j])
          decreases |ids| - index
        {
          assert ids[index..][1..] == ids[index + 1..];
          index := index + 1;
        }
        assert index == FirstTagged(ids);
        children := children[..index] + children[index + 1..];
      }
    }

    /** `change_host`: the edit, then whether the merge control is shown and the
        merge mode it forces (`None` for `dash.no_update`). */
    method ChangeHost(eventId: string, clicks: Option<nat>) returns (visible: bool, merge: Option<string>)
      modifies this
      ensures children ==
        if Shift(eventId) == 1 then Inserted(old(children), Selector(clicks)) else Removed(old(children))
      ensures visible <==> Count(Ids(children)) + Shift(eventId) > 1
      ensures Shift(eventId) == 1 ==> (visible <==> Count(Ids(old(children))) >= 1)
      ensures merge == if visible then None else Some("parallel")
    {
      var shift: int;
      if eventId == "add-button" || eventId == "" {
        shift := 1;
        AddHost(clicks);
        AddedNotCounted(old(children), clicks);
      } else {
        shift := -1;
        RemoveHost();
      }
      var n, _ := GetNSelectors(children);
      if n + shift > 1 {
        visible := true;
        merge := None;
      } else {
        visible := false;
        merge := Some("parallel");
      }
    }
  }

  // ---------------------------------------------------------------------------
  // Properties of the edits

  /** Adding puts exactly one new selector into the tab and keeps the others in
      their order. */
  lemma InsertedKeepsOthers(tab: seq<Element>, e: Element)
    ensures var k := if tab == [] then 0 else 1;
      Inserted(tab, e)[k] == e && Deleted(Inserted(tab, e), k) == tab
  {
  }

  /** The selector just inserted is not among the ids `get_n_selectors` finds
      in the same call: the ids are those of the tab before the add. */
  lemma AddedNotCounted(tab: seq<Element>, clicks: Option<nat>)
    ensures Ids(Inserted(tab, Selector(clicks))) == Ids(tab)
  {
    var e := Selector(clicks);
    assert Ids([e]) == [];
    if tab != [] {
      IdsAppend(tab[..1] + [e], tab[1..]);
      IdsAppend(tab[..1], [e]);
      IdsAppend(tab[..1], tab[1..]);
      assert tab[..1] + tab[1..] == tab;
    }
  }

  /** Once Dash sends the tab back, the added selector is counted: the count
      has grown by exactly one. */
  lemma InsertedCount(tab: seq<Element>, clicks: Option<nat>)
    ensures Count(Ids(Inserted(tab, Sent(Selector(clicks))))) == Count(Ids(tab)) + 1
  {
    var e := Sent(Selector(clicks));
    assert Ids([e]) == [e.id.value];
    assert Count([e.id.value]) == 1;
    if tab == [] {
    } else {
      IdsAppend(tab[..1] + [e], tab[1..]);
      IdsAppend(tab[..1], [e]);
      IdsAppend(tab[..1], tab[1..]);
      assert tab[..1] + tab[1..] == tab;
      CountAppend(Ids(tab[..1]) + Ids([e]), Ids(tab[1..]));
      CountAppend(Ids(tab[..1]), Ids([e]));
      CountAppend(Ids(tab[..1]), Ids(tab[1..]));
    }
  }

  /** After an add (or the initial call) the merge control is shown exactly when
      the tab Dash sent already held a selector: the `+1` stands for the selector
      the count cannot see yet. */
  lemma AddShowsMergeIffSelector(tab: seq<Element>, clicks: Option<nat>)
    ensures Count(Ids(Inserted(tab, Selector(clicks)))) + Shift("add-button") > 1 <==> Count(Ids(tab)) >= 1
    ensures Count(Ids(Inserted(tab, Selector(clicks)))) + Shift("") > 1 <==> Count(Ids(tab)) >= 1
  {
    AddedNotCounted(tab, clicks);
  }

  /** Removing deletes at most one element, and none when at most one selector
      is left. */
  lemma RemovedAtMostOne(tab: seq<Element>)
    ensures Count(Ids(tab)) <= 1 ==> Removed(tab) == tab
    ensures Count(Ids(tab)) > 1 ==>
      exists k :: 0 <= k < |tab| && Removed(tab) == tab[..k] + tab[k + 1..]
  {
    var ids := Ids(tab);
    if Count(ids) > 1 {
      var k := FirstTagged(ids);
      assert Removed(tab) == tab[..k] + tab[k + 1..];
    }
  }

  /** When every element has an id, removing deletes the first selector and the
      count drops by one. */
  lemma RemovedIdentified(tab: seq<Element>)
    requires AllIdentified(tab) && Count(Ids(tab)) > 1
    ensures var k := FirstTagged(Ids(tab));
      Tagged(tab[k].id.value) && Count(Ids(Removed(tab))) == Count(Ids(tab)) - 1
  {
    IdsOfIdentified(tab);
    var k := FirstTagged(Ids(tab));
    assert Removed(tab) == Deleted(tab, k);
    DeletedCount(tab, k);
  }

  /** Deleting an element with a selector id lowers the count by one. */
  lemma DeletedCount(tab: seq<Element>, k: nat)
    requires k < |tab| && tab[k].Props? && tab[k].id.Some? && Tagged(tab[k].id.value)
    ensures Count(Ids(Deleted(tab, k))) == Count(Ids(tab)) - 1
  {
    var before, after := tab[..k], tab[k + 1..];
    var rest := [tab[k]] + after;
    assert tab == before + rest;
    CountSplit(before, after);
    CountSplit(before, rest);
    CountSplit([tab[k]], after);
    assert Count(Ids([tab[k]])) == 1;
  }

  /** The count of a concatenation is the sum of the counts. */
  lemma CountSplit(a: seq<Element>, b: seq<Element>)
    ensures Count(Ids(a + b)) == Count(Ids(a)) + Count(Ids(b))
  {
    IdsAppend(a, b);
    CountAppend(Ids(a), Ids(b));
  }

  /** The id list skips elements without an id, so its positions are not tab
      positions: with a plain element first, `remove_host` deletes that element
      and both selectors stay. */
  lemma RemoveHitsWrongElement()
    ensures var a := Sent(Selector(Some(1)));
      var b := Sent(Selector(Some(2)));
      var tab := [NoProps, a, b];
      Removed(tab) == [a, b] && Count(Ids(Removed(tab))) == Count(Ids(tab)) == 2
  {
    var a := Sent(Selector(Some(1)));
    var b := Sent(Selector(Some(2)));
    var tab := [NoProps, a, b];
    assert tab[1..] == [a, b] && [a, b][1..] == [b] && [b][1..] == [];
    assert Ids([b]) == [b.id.value] + Ids([]);
    assert Ids([a, b]) == [a.id.value] + Ids([b]);
    assert Ids(tab) == Ids([a, b]) == [a.id.value, b.id.value];
    assert [a.id.value, b.id.value][1..] == [b.id.value];
    assert FirstTagged(Ids(tab)) == 0;
  }

  /** With every element identified, removing one of three selectors hides the
      merge control and forces parallel mode although two files remain. */
  lemma RemoveFromThreeHidesMerge(tab: seq<Element>)
    requires AllIdentified(tab) && Count(Ids(tab)) == 3
    ensures Count(Ids(Removed(tab))) == 2
    ensures !(Count(Ids(Removed(tab))) + Shift("remove-button") > 1)
  {
    RemovedIdentified(tab);
  }

  // ---------------------------------------------------------------------------
  // update_output

  const OneFile := "Selected file is: "
  const ManyFiles := "Selected files are: "

  /** `[f"{h}@{p}" for h, p in zip(host, path)]` */
  function Listing(hosts: seq<string>, paths: seq<string>): (ls: seq<string>)
    ensures |ls| == |Utils.Zip(hosts, paths)|
    ensures forall i :: 0 <= i < |ls| ==> ls[i] == hosts[i] + "@" + paths[i]
  {
    var z := Utils.Zip(hosts, paths);
    seq(|z|, i requires 0 <= i < |z| => z[i].0 + "@" + z[i].1)
  }

  /** `update_output(host, path)`: one file is named on its own (indexing the
      first host and path, so empty lists raise `IndexError`), several are listed
      joined by commas. */
  function UpdateOutput(hosts: seq<string>, paths: seq<string>): (r: Result<string>)
    ensures r.Err? <==> |hosts| <= 1 && (hosts == [] || paths == [])
    ensures r.Err? ==> r.error == IndexError
    ensures r.Ok? && |hosts| == 1 ==> r.value == OneFile + hosts[0] + "@" + paths[0]
    ensures r.Ok? && |hosts| > 1 ==> StartsWith(r.value, ManyFiles)
  {
    if |hosts| <= 1 then
      if hosts == [] || paths == [] then Err(IndexError) else Ok(OneFile + hosts[0] + "@" + paths[0])
    else
      var s := ManyFiles + Join(Listing(hosts, paths), ",");
      assert s[..|ManyFiles|] == ManyFiles;
      Ok(s)
  }

  /** The listing of several files reads back as the (host, path) pairs of the
      zip, when no name holds `,` or `@`. */
  lemma OutputListsPairs(hosts: seq<string>, paths: seq<string>)
    requires |hosts| > 1 && paths != []
    requires forall i :: 0 <= i < |hosts| ==> ',' !in hosts[i] && '@' !in hosts[i]
    requires forall i :: 0 <= i < |paths| ==> ',' !in paths[i] && '@' !in paths[i]
    ensures var items := SplitOn(UpdateOutput(hosts, paths).value[|ManyFiles|..], ',');
      |items| == |Utils.Zip(hosts, paths)|
      && forall i :: 0 <= i < |items| ==> SplitOn(items[i], '@') == [hosts[i], paths[i]]
  {
    var ls := Listing(hosts, paths);
    var s := ManyFiles + Join(ls, ",");
    assert s[|ManyFiles|..] == Join(ls, ",");
    SplitOnJoin(ls, ',');
    forall i | 0 <= i < |ls| ensures SplitOn(ls[i], '@') == [hosts[i], paths[i]] {
      assert ls[i] == Join([hosts[i], paths[i]], "@");
      SplitOnJoin([hosts[i], paths[i]], '@');
    }
  }
}
