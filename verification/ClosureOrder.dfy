/**
 What the closure walk visits and in which order, without the walk: an item for every path of the
 tree, with the node found there, in ascending byte order of the paths, name by name.
 */
module ClosureOrder {

  import opened Closure

  // ----- Byte order --------------------------------------------------------------------

  /** At `k` the strings part: one ends there, or has the smaller byte. */
  predicate PartsAt(a: Bytes, b: Bytes, k: nat) {
    k <= |a| && k < |b| && a[..k] == b[..k] && (k == |a| || a[k] < b[k])
  }

  ghost predicate ByteLess(a: Bytes, b: Bytes) {
    exists k: nat :: PartsAt(a, b, k)
  }

  /** The order the names are sorted by is ascending byte order. */
  lemma {:induction false} LeqExactly(a: Bytes, b: Bytes)
    ensures Leq(a, b) <==> a == b || ByteLess(a, b)
  {
    if a == [] {
      if b != [] { assert PartsAt(a, b, 0); }
    } else if b != [] {
      var x, y := a[1..], b[1..];
      LeqExactly(x, y);
      assert a == [a[0]] + x && b == [b[0]] + y;
      if a[0] < b[0] {
        assert PartsAt(a, b, 0);
      }
      if k: nat :| PartsAt(x, y, k) {
        if a[0] == b[0] {
          assert a[..k + 1] == [a[0]] + x[..k] && b[..k + 1] == [b[0]] + y[..k];
          assert PartsAt(a, b, k + 1);
        }
      }
      if k: nat :| PartsAt(a, b, k) {
        if k > 0 {
          PartsBehind(a, b, k);
        }
      }
    }
  }

  lemma {:induction false} PartsBehind(a: Bytes, b: Bytes, k: nat)
    requires k > 0 && PartsAt(a, b, k)
    ensures a[0] == b[0] && PartsAt(a[1..], b[1..], k - 1)
  {
    assert a[..k][0] == a[0] && b[..k][0] == b[0];
    assert a[..k][1..] == a[1..][..k - 1] && b[..k][1..] == b[1..][..k - 1];
  }

  // ----- What is visited -----------------------------------------------------------------

  /** Following the names from `t` leads to `node`. */
  ghost predicate At(t: Tree, names: seq<Bytes>, node: Tree)
    decreases |names|
  {
    if names == [] then t == node
    else t.kind.Directory? && AtOne(t.kind.children, names, node)
  }

  ghost predicate AtOne(ts: seq<Tree>, names: seq<Bytes>, node: Tree)
    requires names != []
    decreases |names|, 0
  {
    exists t :: t in ts && t.name == names[0] && At(t, names[1..], node)
  }

  /** The item is at or below `path`, and what is there is its node. */
  ghost predicate Leads(path: seq<Bytes>, t: Tree, item: Item) {
    path <= item.path && At(t, item.path[|path|..], item.node)
  }

  ghost predicate LeadsOne(path: seq<Bytes>, ts: seq<Tree>, item: Item) {
    path < item.path && AtOne(ts, item.path[|path|..], item.node)
  }

  lemma {:induction false} AtOneSplit(ts: seq<Tree>, names: seq<Bytes>, node: Tree)
    requires ts != [] && names != []
    ensures AtOne(ts, names, node) <==>
              (ts[0].name == names[0] && At(ts[0], names[1..], node)) || AtOne(ts[1..], names, node)
  {
    hide At;
    assert ts == [ts[0]] + ts[1..];
    assert forall t :: t in ts <==> t == ts[0] || t in ts[1..];
  }

  lemma {:induction false} AtOneSorted(ts: seq<Tree>, names: seq<Bytes>, node: Tree)
    requires names != []
    ensures AtOne(SortByName(ts), names, node) <==> AtOne(ts, names, node)
  {
    hide At, SortByName;
    var sorted := SortByName(ts);
    assert forall t :: t in ts <==> t in multiset(ts);
    assert forall t :: t in sorted <==> t in multiset(sorted);
  }

  /** The walk visits exactly the paths of the tree, each with the node that is there. */
  lemma {:induction false} TreeVisits(path: seq<Bytes>, t: Tree, item: Item)
    ensures item in PreOrder(path, t) <==> Leads(path, t, item)
    decreases Size(t), 0
  {
    hide PreOrderAll, SortByName, AtOne;
    var here := Item(path, t);
    if t.kind.Directory? {
      var below := PreOrderAll(path, SortByName(t.kind.children));
      ForestVisits(path, SortByName(t.kind.children), item);
      assert PreOrder(path, t) == [here] + below;
      assert item in PreOrder(path, t) <==> item == here || item in below;
      if path < item.path {
        AtOneSorted(t.kind.children, item.path[|path|..], item.node);
      }
    } else {
      assert PreOrder(path, t) == [here];
    }
    HereOrBelow(path, item);
  }

  lemma {:induction false} HereOrBelow(path: seq<Bytes>, item: Item)
    ensures path <= item.path ==> (item.path[|path|..] == [] <==> item.path == path)
    ensures path < item.path <==> path <= item.path && item.path != path
  {}

  lemma {:induction false} ForestVisits(path: seq<Bytes>, ts: seq<Tree>, item: Item)
    ensures item in PreOrderAll(path, ts) <==> LeadsOne(path, ts, item)
    decreases SizeAll(ts), 1
  {
    hide PreOrder, At;
    if ts != [] {
      var first := path + [ts[0].name];
      var a, b := PreOrder(first, ts[0]), PreOrderAll(path, ts[1..]);
      assert item in PreOrderAll(path, ts) <==> item in a || item in b;
      TreeVisits(first, ts[0], item);
      ForestVisits(path, ts[1..], item);
      StepDown(path, ts[0], item);
      if path < item.path {
        AtOneSplit(ts, item.path[|path|..], item.node);
      }
    }
  }

  lemma {:induction false} StepDown(path: seq<Bytes>, t: Tree, item: Item)
    ensures Leads(path + [t.name], t, item) <==>
              path < item.path && item.path[|path|] == t.name && At(t, item.path[|path|..][1..], item.node)
  {
    hide At;
    var first := path + [t.name];
    if path < item.path {
      assert item.path[|path|..][1..] == item.path[|first|..];
      assert item.path == path + [item.path[|path|]] + item.path[|first|..];
    }
    if first <= item.path {
      assert item.path[..|path|] == first[..|path|] == path;
      assert item.path[|path|] == first[|path|];
    }
  }

  // ----- In which order -------------------------------------------------------------------

  /** At `k` the paths part: one ends there, or goes on with the smaller name. */
  ghost predicate PathsPartAt(p: seq<Bytes>, q: seq<Bytes>, k: nat) {
    k <= |p| && k < |q| && p[..k] == q[..k] && (k == |p| || ByteLess(p[k], q[k]))
  }

  ghost predicate PathBefore(p: seq<Bytes>, q: seq<Bytes>) {
    exists k: nat :: PathsPartAt(p, q, k)
  }

  ghost predicate Ascends(items: seq<Item>) {
    forall i, j :: 0 <= i < j < |items| ==> PathBefore(items[i].path, items[j].path)
  }

  lemma {:induction false} TreeAscends(path: seq<Bytes>, t: Tree)
    requires ProperTree(t)
    ensures Ascends(PreOrder(path, t))
    decreases Size(t), 0
  {
    hide PreOrderAll, SortByName, DistinctNames, ProperForest, PathBefore;
    var items := PreOrder(path, t);
    if t.kind.Directory? {
      var sorted := SortByName(t.kind.children);
      SortedForestProper(t.kind.children);
      SortSorted(t.kind.children);
      ForestAscends(path, sorted);
      ForestOnce(path, sorted);
      var below := PreOrderAll(path, sorted);
      assert items == [Item(path, t)] + below;
      forall j | 0 <= j < |below|
        ensures PathBefore(path, below[j].path)
      {
        RootFirst(path, below[j].path, sorted, below[j]);
      }
    } else {
      assert items == [Item(path, t)];
    }
  }

  lemma {:induction false} RootFirst(path: seq<Bytes>, q: seq<Bytes>, names: seq<Tree>, item: Item)
    requires Below(path, names, item) && item.path == q
    ensures PathBefore(path, q)
  {
    hide ByteLess;
    assert path[..|path|] == path;
    assert PathsPartAt(path, q, |path|);
  }

  lemma {:induction false} ForestAscends(path: seq<Bytes>, ts: seq<Tree>)
    requires ProperForest(ts) && DistinctNames(ts) && Sorted(ts)
    ensures Ascends(PreOrderAll(path, ts))
    decreases SizeAll(ts), 1
  {
    hide PreOrder, ProperTree, PathBefore, Leq, Below, NoRepeat;
    if ts != [] {
      var p := path + [ts[0].name];
      var a, b := PreOrder(p, ts[0]), PreOrderAll(path, ts[1..]);
      TreeAscends(p, ts[0]);
      Tails(ts);
      ForestAscends(path, ts[1..]);
      TreeOnce(p, ts[0]);
      ForestOnce(path, ts[1..]);
      FirstBelow(path, ts, a);
      forall i, j | 0 <= i < |a| && 0 <= j < |b|
        ensures PathBefore(a[i].path, b[j].path)
      {
        EarlierName(path, ts, a[i], b[j]);
      }
      JoinAscends(a, b);
    }
  }

  lemma {:induction false} JoinAscends(a: seq<Item>, b: seq<Item>)
    requires Ascends(a) && Ascends(b)
    requires forall i, j :: 0 <= i < |a| && 0 <= j < |b| ==> PathBefore(a[i].path, b[j].path)
    ensures Ascends(a + b)
  {
    hide PathBefore;
  }

  /** What is below the first child comes before what is below a later one. */
  lemma {:induction false} EarlierName(path: seq<Bytes>, ts: seq<Tree>, x: Item, y: Item)
    requires ts != [] && Sorted(ts) && DistinctNames(ts)
    requires Below(path, ts, x) && x.path[|path|] == ts[0].name && Below(path, ts[1..], y)
    ensures PathBefore(x.path, y.path)
  {
    hide Leq, ByteLess;
    var k :| 0 <= k < |ts[1..]| && ts[1..][k].name == y.path[|path|];
    assert ts[k + 1] == ts[1..][k];
    assert Leq(ts[0].name, ts[k + 1].name) && ts[0].name != ts[k + 1].name;
    LeqExactly(ts[0].name, ts[k + 1].name);
    assert PathsPartAt(x.path, y.path, |path|);
  }

  /**
   The walk of a proper tree: its items ascend strictly by path, and they are exactly the paths of
   the tree with the nodes found there.
   */
  lemma {:induction false} WalkExactly(root: Tree)
    requires ProperTree(root)
    ensures Ascends(PreOrder([], root))
    ensures forall item: Item :: item in PreOrder([], root) <==> At(root, item.path, item.node)
  {
    hide PreOrder, At;
    TreeAscends([], root);
    forall item: Item
      ensures item in PreOrder([], root) <==> At(root, item.path, item.node)
    {
      TreeVisits([], root, item);
      assert item.path[0..] == item.path;
    }
  }
}
