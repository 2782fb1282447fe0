/**
 The reviewed-package closure digest (`review-teardown-profiles.py`): an explicit-stack walk
 over a package tree and the length-prefixed byte stream it feeds to SHA-256.
 */
module Closure {

  type Byte = b: int | 0 <= b < 256
  type Bytes = seq<Byte>

  /** A file-system tree as `lstat` sees it; a directory lists its children in any order. */
  datatype Tree = Tree(name: Bytes, executable: bool, kind: Kind)
  datatype Kind = Directory(children: seq<Tree>) | File(content: Bytes) | Symlink(target: Bytes) | Special

  /** A node and the names on the way to it from the root. */
  datatype Item = Item(path: seq<Bytes>, node: Tree)

  function Size(t: Tree): (n: nat)
    ensures n >= 1
  {
    match t.kind
    case Directory(children) => 1 + SizeAll(children)
    case _ => 1
  }

  function SizeAll(ts: seq<Tree>): nat {
    if ts == [] then 0 else Size(ts[0]) + SizeAll(ts[1..])
  }

  // ----- Byte order of names ------------------------------------------------

  /** Python's order on byte strings. */
  predicate Leq(a: Bytes, b: Bytes) {
    a == [] || (b != [] && (a[0] < b[0] || (a[0] == b[0] && Leq(a[1..], b[1..]))))
  }

  lemma {:induction false} LeqTotal(a: Bytes, b: Bytes)
    ensures Leq(a, b) || Leq(b, a)
    ensures Leq(a, b) && Leq(b, a) ==> a == b
  {
    if a != [] && b != [] {
      LeqTotal(a[1..], b[1..]);
      assert a == [a[0]] + a[1..] && b == [b[0]] + b[1..];
    }
  }

  lemma {:induction false} LeqTransitive(a: Bytes, b: Bytes, c: Bytes)
    requires Leq(a, b) && Leq(b, c)
    ensures Leq(a, c)
  {
    if a != [] && a[0] == b[0] == c[0] {
      LeqTransitive(a[1..], b[1..], c[1..]);
    }
  }

  predicate Sorted(ts: seq<Tree>) {
    forall i, j :: 0 <= i < j < |ts| ==> Leq(ts[i].name, ts[j].name)
  }

  function Insert(t: Tree, ts: seq<Tree>): (r: seq<Tree>)
    ensures multiset(r) == multiset{t} + multiset(ts)
    ensures SizeAll(r) == Size(t) + SizeAll(ts)
  {
    if ts == [] || Leq(t.name, ts[0].name) then
      assert ([t] + ts)[1..] == ts;
      [t] + ts
    else
      var rest := Insert(t, ts[1..]);
      assert ts == [ts[0]] + ts[1..];
      assert ([ts[0]] + rest)[1..] == rest;
      [ts[0]] + rest
  }

  /** `sorted(children, key=name)`. */
  function SortByName(ts: seq<Tree>): (r: seq<Tree>)
    ensures multiset(r) == multiset(ts)
    ensures SizeAll(r) == SizeAll(ts)
  {
    if ts == [] then []
    else
      assert ts == [ts[0]] + ts[1..];
      Insert(ts[0], SortByName(ts[1..]))
  }

  lemma {:induction false} InsertSorted(t: Tree, ts: seq<Tree>)
    requires Sorted(ts)
    ensures Sorted(Insert(t, ts))
  {
    hide Leq;
    if ts == [] || Leq(t.name, ts[0].name) {
      forall j | 0 <= j < |ts| ensures Leq(t.name, ts[j].name) {
        if j > 0 { LeqTransitive(t.name, ts[0].name, ts[j].name); }
      }
    } else {
      InsertSorted(t, ts[1..]);
      LeqTotal(t.name, ts[0].name);
      var r := Insert(t, ts[1..]);
      forall j | 0 <= j < |r| ensures Leq(ts[0].name, r[j].name) {
        assert r[j] in multiset(r);
        if r[j] != t {
          var k :| 0 <= k < |ts[1..]| && ts[1..][k] == r[j];
          assert ts[k + 1] == r[j];
        }
      }
    }
  }

  lemma {:induction false} SortSorted(ts: seq<Tree>)
    ensures Sorted(SortByName(ts))
  {
    if ts != [] {
      SortSorted(ts[1..]);
      InsertSorted(ts[0], SortByName(ts[1..]));
    }
  }

  ghost predicate DistinctNames(ts: seq<Tree>) {
    forall i, j :: 0 <= i < j < |ts| ==> ts[i].name != ts[j].name
  }

  /** With distinct names there is only one sorted order. */
  lemma {:induction false} SortedUnique(a: seq<Tree>, b: seq<Tree>)
    requires multiset(a) == multiset(b) && Sorted(a) && Sorted(b) && DistinctNames(a)
    ensures a == b
  {
    hide Leq, Sorted, DistinctNames;
    assert |multiset(a)| == |a| && |multiset(b)| == |b|;
    if a != [] {
      SmallestFirst(a, b);
      assert a == [a[0]] + a[1..] && b == [b[0]] + b[1..];
      assert multiset(a[1..]) == multiset(a) - multiset{a[0]};
      assert multiset(b[1..]) == multiset(b) - multiset{b[0]};
      Tails(a);
      Tails(b);
      SortedUnique(a[1..], b[1..]);
    }
  }

  lemma {:induction false} Tails(a: seq<Tree>)
    requires a != []
    ensures Sorted(a) ==> Sorted(a[1..])
    ensures DistinctNames(a) ==> DistinctNames(a[1..])
  {
    hide Leq;
  }

  lemma {:induction false} SmallestFirst(a: seq<Tree>, b: seq<Tree>)
    requires a != [] && |a| == |b| && multiset(a) == multiset(b) && Sorted(a) && Sorted(b) && DistinctNames(a)
    ensures a[0] == b[0]
  {
    hide Leq;
    assert a[0] in multiset(b) && b[0] in multiset(a);
    var i :| 0 <= i < |b| && b[i] == a[0];
    var j :| 0 <= j < |a| && a[j] == b[0];
    LeqTotal(a[0].name, b[0].name);
  }

  lemma {:induction false} DistinctPermutation(a: seq<Tree>, b: seq<Tree>)
    requires multiset(a) == multiset(b) && DistinctNames(a)
    ensures DistinctNames(b)
  {
    forall i, j | 0 <= i < j < |b| ensures b[i].name != b[j].name {
      assert b == b[..i] + [b[i]] + b[i + 1..j] + [b[j]] + b[j + 1..];
      if b[i] == b[j] {
        assert multiset(b)[b[i]] >= 2;
        DuplicateIndices(a, b[i]);
      } else {
        assert b[i] in multiset(a) && b[j] in multiset(a);
      }
    }
  }

  lemma {:induction false} DuplicateIndices(a: seq<Tree>, t: Tree)
    requires multiset(a)[t] >= 2
    ensures exists i, j :: 0 <= i < j < |a| && a[i] == t && a[j] == t
  {
    assert a == [a[0]] + a[1..];
    if a[0] == t {
      assert t in multiset(a[1..]);
      var j :| 0 <= j < |a[1..]| && a[1..][j] == t;
      assert a[j + 1] == t;
    } else {
      DuplicateIndices(a[1..], t);
      var i, j :| 0 <= i < j < |a[1..]| && a[1..][i] == t && a[1..][j] == t;
      assert a[i + 1] == t && a[j + 1] == t;
    }
  }

  /** The order in which a directory is listed does not matter. */
  lemma {:induction false} SortIgnoresListing(a: seq<Tree>, b: seq<Tree>)
    requires multiset(a) == multiset(b) && DistinctNames(a)
    ensures SortByName(a) == SortByName(b)
  {
    SortSorted(a);
    SortSorted(b);
    DistinctPermutation(a, SortByName(a));
    SortedUnique(SortByName(a), SortByName(b));
  }

  // ----- The walk -----------------------------------------------------------

  /** The recursive pre-order walk with children in ascending byte order of name. */
  function PreOrder(path: seq<Bytes>, t: Tree): (items: seq<Item>)
    ensures |items| == Size(t)
    ensures items[0] == Item(path, t)
    decreases Size(t), 0
  {
    [Item(path, t)] + match t.kind
                      case Directory(children) => PreOrderAll(path, SortByName(children))
                      case _ => []
  }

  function PreOrderAll(path: seq<Bytes>, ts: seq<Tree>): (items: seq<Item>)
    ensures |items| == SizeAll(ts)
    decreases SizeAll(ts), 1
  {
    if ts == [] then [] else PreOrder(path + [ts[0].name], ts[0]) + PreOrderAll(path, ts[1..])
  }

  /** What a stack still has to yield, its last item first. */
  function Remaining(pending: seq<Item>): seq<Item> {
    if pending == [] then []
    else PreOrder(pending[|pending| - 1].path, pending[|pending| - 1].node) + Remaining(pending[..|pending| - 1])
  }

  function Work(pending: seq<Item>): nat {
    if pending == [] then 0 else Size(pending[|pending| - 1].node) + Work(pending[..|pending| - 1])
  }

  /** `sorted(path.iterdir(), ..., reverse=True)`, as items. */
  function ReversedChildren(path: seq<Bytes>, ts: seq<Tree>): seq<Item> {
    if ts == [] then [] else ReversedChildren(path, ts[1..]) + [Item(path + [ts[0].name], ts[0])]
  }

  lemma {:induction false} PushChildren(pending: seq<Item>, path: seq<Bytes>, ts: seq<Tree>)
    ensures Remaining(pending + ReversedChildren(path, ts)) == PreOrderAll(path, ts) + Remaining(pending)
    ensures Work(pending + ReversedChildren(path, ts)) == SizeAll(ts) + Work(pending)
  {
    if ts == [] {
      assert pending + [] == pending;
    } else {
      var first := Item(path + [ts[0].name], ts[0]);
      var stack := pending + ReversedChildren(path, ts);
      assert stack == pending + ReversedChildren(path, ts[1..]) + [first];
      assert stack[..|stack| - 1] == pending + ReversedChildren(path, ts[1..]);
      PushChildren(pending, path, ts[1..]);
    }
  }

  /** What visiting an item pushes. */
  function Pushed(item: Item): seq<Item> {
    match item.node.kind
    case Directory(children) => ReversedChildren(item.path, SortByName(children))
    case _ => []
  }

  /** Visiting the top of the stack yields its first item and leaves the rest of the walk. */
  lemma {:induction false} VisitTop(rest: seq<Item>, item: Item)
    ensures Remaining(rest + [item]) == [item] + Remaining(rest + Pushed(item))
    ensures Work(rest + Pushed(item)) < Work(rest + [item])
  {
    hide ReversedChildren, SortByName, PreOrderAll, SizeAll;
    var stack := rest + [item];
    assert stack[..|stack| - 1] == rest && stack[|stack| - 1] == item;
    match item.node.kind
    case Directory(children) =>
      PushChildren(rest, item.path, SortByName(children));
    case _ =>
      assert rest + [] == rest;
  }

  lemma {:induction false} StackEnds(root: Tree)
    ensures Remaining([Item([], root)]) == PreOrder([], root) && Remaining([]) == []
  {
    hide PreOrder;
    assert [Item([], root)][..0] == [];
  }

  /** `closure_entries`: the explicit stack yields exactly the recursive walk, and it stops. */
  method Walk(root: Tree) returns (items: seq<Item>)
    ensures items == PreOrder([], root)
  {
    hide PreOrder, SortByName, ReversedChildren, Remaining, Work;
    StackEnds(root);
    items := [];
    var pending := [Item([], root)];
    while pending != []
      invariant items + Remaining(pending) == PreOrder([], root)
      decreases Work(pending)
    {
      var item := pending[|pending| - 1];
      var rest := pending[..|pending| - 1];
      assert pending == rest + [item];
      VisitTop(rest, item);
      assert items + Remaining(pending) == items + [item] + Remaining(rest + Pushed(item));
      items := items + [item];
      pending := rest;
      if item.node.kind.Directory? {
        pending := pending + ReversedChildren(item.path, SortByName(item.node.kind.children));
      } else {
        assert rest + [] == rest;
      }
    }
  }

  // ----- Each node once -------------------------------------------------------

  /** No directory lists a name twice. */
  ghost predicate ProperTree(t: Tree)
    decreases Size(t), 0
  {
    t.kind.Directory? ==> DistinctNames(t.kind.children) && ProperForest(t.kind.children)
  }

  ghost predicate ProperForest(ts: seq<Tree>)
    decreases SizeAll(ts), 1
  {
    ts == [] || (ProperTree(ts[0]) && ProperForest(ts[1..]))
  }

  lemma {:induction false} ProperForestIff(ts: seq<Tree>)
    ensures ProperForest(ts) <==> forall t :: t in ts ==> ProperTree(t)
  {
    if ts != [] {
      ProperForestIff(ts[1..]);
      assert ts[0] in ts;
      assert forall t :: t in ts <==> t == ts[0] || t in ts[1..];
    }
  }

  lemma {:induction false} SortedForestProper(ts: seq<Tree>)
    requires DistinctNames(ts) && ProperForest(ts)
    ensures DistinctNames(SortByName(ts)) && ProperForest(SortByName(ts))
  {
    DistinctPermutation(ts, SortByName(ts));
    ProperForestIff(ts);
    ProperForestIff(SortByName(ts));
    assert forall t :: t in ts <==> t in multiset(ts);
    assert forall t :: t in SortByName(ts) <==> t in multiset(SortByName(ts));
  }

  predicate NoRepeat(items: seq<Item>) {
    forall i, j :: 0 <= i < j < |items| ==> items[i].path != items[j].path
  }

  /** The item is below `path`, through one of the named children. */
  predicate Below(path: seq<Bytes>, names: seq<Tree>, item: Item) {
    && |path| < |item.path| && item.path[..|path|] == path
    && exists k :: 0 <= k < |names| && names[k].name == item.path[|path|]
  }

  lemma {:induction false} TreeOnce(path: seq<Bytes>, t: Tree)
    requires ProperTree(t)
    ensures NoRepeat(PreOrder(path, t))
    ensures forall i :: 0 <= i < |PreOrder(path, t)| ==>
              |path| <= |PreOrder(path, t)[i].path| && PreOrder(path, t)[i].path[..|path|] == path
    decreases Size(t), 0
  {
    hide PreOrderAll, SortByName, NoRepeat, DistinctNames, ProperForest;
    var items := PreOrder(path, t);
    if t.kind.Directory? {
      var below := PreOrderAll(path, SortByName(t.kind.children));
      SortedForestProper(t.kind.children);
      ForestOnce(path, SortByName(t.kind.children));
      assert items == [Item(path, t)] + below;
      HeadOnce(path, t, SortByName(t.kind.children), below);
    } else {
      assert items == [Item(path, t)];
      SingleOnce(Item(path, t));
    }
  }

  lemma {:induction false} SingleOnce(item: Item)
    ensures NoRepeat([item])
  {}

  lemma {:induction false} HeadOnce(path: seq<Bytes>, t: Tree, names: seq<Tree>, below: seq<Item>)
    requires NoRepeat(below) && forall i :: 0 <= i < |below| ==> Below(path, names, below[i])
    ensures var items := [Item(path, t)] + below;
            NoRepeat(items) && forall i :: 0 <= i < |items| ==>
                |path| <= |items[i].path| && items[i].path[..|path|] == path
  {}

  lemma {:induction false} ForestOnce(path: seq<Bytes>, ts: seq<Tree>)
    requires ProperForest(ts) && DistinctNames(ts)
    ensures NoRepeat(PreOrderAll(path, ts))
    ensures forall i :: 0 <= i < |PreOrderAll(path, ts)| ==> Below(path, ts, PreOrderAll(path, ts)[i])
    decreases SizeAll(ts), 1
  {
    hide PreOrder, ProperTree, NoRepeat, Below;
    if ts == [] {
      NothingOnce();
    } else {
      var p := path + [ts[0].name];
      var a, b := PreOrder(p, ts[0]), PreOrderAll(path, ts[1..]);
      TreeOnce(p, ts[0]);
      ForestOnce(path, ts[1..]);
      FirstBelow(path, ts, a);
      RestBelow(path, ts, b);
      Disjoint(path, ts, a, b);
    }
  }

  lemma {:induction false} NothingOnce()
    ensures NoRepeat([])
  {}

  lemma {:induction false} FirstBelow(path: seq<Bytes>, ts: seq<Tree>, items: seq<Item>)
    requires ts != []
    requires var p := path + [ts[0].name]; forall i :: 0 <= i < |items| ==>
        |p| <= |items[i].path| && items[i].path[..|p|] == p
    ensures forall i :: 0 <= i < |items| ==> Below(path, ts, items[i]) && items[i].path[|path|] == ts[0].name
  {
    var p := path + [ts[0].name];
    forall i | 0 <= i < |items| ensures Below(path, ts, items[i]) && items[i].path[|path|] == ts[0].name {
      var q := items[i].path;
      assert q[..|p|][..|path|] == q[..|path|];
      assert q[..|p|][|path|] == q[|path|];
      assert p[|path|] == ts[0].name;
    }
  }

  lemma {:induction false} RestBelow(path: seq<Bytes>, ts: seq<Tree>, items: seq<Item>)
    requires ts != [] && forall i :: 0 <= i < |items| ==> Below(path, ts[1..], items[i])
    ensures forall i :: 0 <= i < |items| ==> Below(path, ts, items[i])
  {
    forall i | 0 <= i < |items| ensures Below(path, ts, items[i]) {
      var k :| 0 <= k < |ts[1..]| && ts[1..][k].name == items[i].path[|path|];
      assert ts[k + 1].name == items[i].path[|path|];
    }
  }

  lemma {:induction false} Disjoint(path: seq<Bytes>, ts: seq<Tree>, a: seq<Item>, b: seq<Item>)
    requires ts != [] && DistinctNames(ts) && NoRepeat(a) && NoRepeat(b)
    requires forall i :: 0 <= i < |a| ==> |path| < |a[i].path| && a[i].path[|path|] == ts[0].name
    requires forall i :: 0 <= i < |b| ==> Below(path, ts[1..], b[i])
    ensures NoRepeat(a + b)
  {
    forall i, j | 0 <= i < j < |a + b| ensures (a + b)[i].path != (a + b)[j].path {
      if i < |a| <= j {
        var k :| 0 <= k < |ts[1..]| && ts[1..][k].name == b[j - |a|].path[|path|];
        assert ts[k + 1].name != ts[0].name;
      }
    }
  }

  /** The walk yields as many items as the tree has nodes, no path twice, the root first. */
  lemma {:induction false} EachNodeOnce(root: Tree)
    requires ProperTree(root)
    ensures |PreOrder([], root)| == Size(root) && NoRepeat(PreOrder([], root)) &&
        PreOrder([], root)[0] == Item([], root)
  {
    TreeOnce([], root);
  }
}
