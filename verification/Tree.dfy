/** The packet detail tree on the heap, and the Qt index adapter over it. */
module Tree {
  import opened Wrappers
  import opened TreeShape

  class TreeItem {
    const title: string
    var children: seq<TreeItem>
    var parent: TreeItem?

    constructor (title: string, p: TreeItem?)
      ensures this.title == title && children == [] && parent == p
    {
      this.title := title;
      children := [];
      parent := p;
    }

    method AddChild(child: TreeItem)
      modifies this`children, child`parent
      ensures children == old(children) + [child]
      ensures child.parent == this
    {
      children := children + [child];
      child.parent := this;
    }

    /** `QVector::value`: null when out of range. */
    function Child(row: int): (c: TreeItem?)
      reads this
      ensures c != null <==> 0 <= row < |children|
    {
      if 0 <= row < |children| then children[row] else null
    }

    function ChildCount(): nat
      reads this
    {
      |children|
    }

    /** The position of this item in its parent's list: -1 if it is not there, 0 without a parent. */
    function Row(): (r: int)
      reads this, parent
      ensures parent == null ==> r == 0
      ensures parent != null && this in parent.children ==> 0 <= r < |parent.children| && parent.children[r] == this
      ensures parent != null && this !in parent.children ==> r == -1
    {
      if parent == null then 0 else IndexOf(parent.children, this)
    }

    /** The destructor: deletes the children in list order, then the item itself goes. */
    method Delete(ghost s: Shape<TreeItem>, ghost root: TreeItem, ghost h: nat) returns (deleted: seq<TreeItem>)
      requires IsTree(s, root) && Bounded(s, h) && this in s.kids
      requires forall m | m in s.kids :: m.children == s.kids[m]
      ensures deleted == PostOrder(s, root, h, this)
      decreases h - s.depth[this]
    {
      deleted := [];
      var i := 0;
      while i < |children|
        invariant 0 <= i <= |children|
        invariant deleted == PostOrderKids(s, root, h, this, i)
      {
        assert ChildOf(s, root, this, children[i]);
        var below := children[i].Delete(s, root, h);
        deleted := deleted + below;
        i := i + 1;
      }
      deleted := deleted + [this];
    }
  }

  type Depths = map<TreeItem, nat>

  /** `QVector::indexOf`. */
  function IndexOf(s: seq<TreeItem>, x: TreeItem): (i: int)
    ensures -1 <= i < |s|
    ensures i >= 0 ==> s[i] == x
    ensures i < 0 ==> x !in s
  {
    if s == [] then -1
    else if s[0] == x then 0
    else var i := IndexOf(s[1..], x); if i < 0 then -1 else i + 1
  }

  function ParentOf(n: TreeItem): Option<TreeItem>
    reads n
  {
    if n.parent == null then None else Some(n.parent)
  }

  /** The shape the heap gives to a set of items. */
  ghost function ShapeOf(items: set<TreeItem>, depth: Depths): Shape<TreeItem>
    reads items
  {
    Shape(map n | n in items :: n.children,
          map n | n in items :: ParentOf(n),
          depth)
  }

  ghost predicate HeapTree(root: TreeItem, items: set<TreeItem>, depth: Depths)
    reads items
  {
    IsTree(ShapeOf(items, depth), root)
  }

  // ---------- growing a tree ----------

  /** A fresh item is a tree of its own, whatever parent its constructor was given. */
  lemma FreshItemIsTree(c: TreeItem)
    requires c.children == []
    ensures HeapTree(c, {c}, map[c := 0])
  {
  }

  ghost function DepthsAfter(depth: Depths, n: TreeItem, below: Depths): Depths
    requires n in depth
  {
    depth + (map m | m in below :: below[m] + depth[n] + 1)
  }

  /** The heap looks like s, except possibly at one child list and one parent link. */
  ghost predicate LooksLike(s: Shape<TreeItem>, exceptList: TreeItem, exceptLink: TreeItem)
    reads s.kids.Keys
  {
    && s.kids.Keys == s.up.Keys
    && (forall m | m in s.kids && m != exceptList :: m.children == s.kids[m])
    && (forall m | m in s.kids && m != exceptLink :: ParentOf(m) == s.up[m])
  }

  lemma GraftedKids(s: Shape<TreeItem>, n: TreeItem, t: Shape<TreeItem>, c: TreeItem)
    requires n in s.kids && n in s.depth && c in t.kids && s.kids.Keys !! t.kids.Keys
    requires LooksLike(s, n, c) && LooksLike(t, n, c) && n.children == s.kids[n] + [c]
    ensures (map m | m in s.kids.Keys + t.kids.Keys :: m.children) == Attach(s, n, t, c).kids
  {
    var a := Attach(s, n, t, c);
    assert a.kids.Keys == s.kids.Keys + t.kids.Keys;
    assert forall m | m in a.kids :: m.children == a.kids[m];
  }

  lemma GraftedLinks(s: Shape<TreeItem>, n: TreeItem, t: Shape<TreeItem>, c: TreeItem)
    requires n in s.kids && n in s.depth && c in t.kids && s.kids.Keys !! t.kids.Keys
    requires LooksLike(s, n, c) && LooksLike(t, n, c) && c.parent == n
    ensures (map m | m in s.kids.Keys + t.kids.Keys :: ParentOf(m)) == Attach(s, n, t, c).up
  {
    var a := Attach(s, n, t, c);
    assert a.up.Keys == s.kids.Keys + t.kids.Keys;
    assert ParentOf(c) == Some(n);
    hide ParentOf;
    assert forall m | m in a.up :: ParentOf(m) == a.up[m];
  }

  lemma GraftedShape(s: Shape<TreeItem>, n: TreeItem, t: Shape<TreeItem>, c: TreeItem)
    requires n in s.kids && n in s.depth && c in t.kids && s.kids.Keys !! t.kids.Keys
    requires LooksLike(s, n, c) && LooksLike(t, n, c)
    requires n.children == s.kids[n] + [c] && c.parent == n
    ensures ShapeOf(s.kids.Keys + t.kids.Keys, DepthsAfter(s.depth, n, t.depth)) == Attach(s, n, t, c)
  {
    hide LooksLike, ParentOf;
    GraftedKids(s, n, t, c);
    GraftedLinks(s, n, t, c);
  }

  /** After n's list has gained c and c's link points to n, two separate trees s and t are one. */
  lemma GraftedIsTree(s: Shape<TreeItem>, root: TreeItem, n: TreeItem, t: Shape<TreeItem>, c: TreeItem)
    requires IsTree(s, root) && IsTree(t, c) && n in s.kids && s.kids.Keys !! t.kids.Keys
    requires LooksLike(s, n, c) && LooksLike(t, n, c)
    requires n.children == s.kids[n] + [c] && c.parent == n
    ensures HeapTree(root, s.kids.Keys + t.kids.Keys, DepthsAfter(s.depth, n, t.depth))
  {
    AttachKeepsTree(s, root, n, t, c);
    GraftedShape(s, n, t, c);
  }

  /** addChild on a separate tree, in terms of the trees. */
  method Graft(root: TreeItem, ghost items: set<TreeItem>, ghost depth: Depths, owner: TreeItem,
               ghost below: set<TreeItem>, ghost depthBelow: Depths, item: TreeItem)
    requires HeapTree(root, items, depth) && HeapTree(item, below, depthBelow)
    requires items !! below && owner in items && item in below
    modifies owner`children, item`parent
    ensures HeapTree(root, items + below, DepthsAfter(depth, owner, depthBelow))
    ensures owner.children == old(owner.children) + [item] && item.parent == owner
  {
    hide IsTree, DepthsAfter;
    ghost var s, t := ShapeOf(items, depth), ShapeOf(below, depthBelow);
    assert s.kids.Keys == items && t.kids.Keys == below && s.depth == depth && t.depth == depthBelow;
    owner.AddChild(item);
    assert LooksLike(s, owner, item);
    assert LooksLike(t, owner, item);
    GraftedIsTree(s, root, owner, t, item);
  }

  /** `new TreeItem(title, declared)` followed by `owner->addChild(item)`. */
  method AddNew(root: TreeItem, ghost items: set<TreeItem>, ghost depth: Depths,
                owner: TreeItem, declared: TreeItem, title: string)
    returns (item: TreeItem, ghost after: Depths)
    requires HeapTree(root, items, depth) && owner in items
    modifies owner`children
    ensures fresh(item) && item.parent == owner && item.title == title && item.children == []
    ensures owner.children == old(owner.children) + [item]
    ensures HeapTree(root, items + {item}, after)
  {
    item := new TreeItem(title, declared);
    FreshItemIsTree(item);
    Graft(root, items, depth, owner, {item}, map[item := 0], item);
    after := DepthsAfter(depth, owner, map[item := 0]);
  }

  /** One step of building a packet tree: a new item, constructed with one parent and added to the list of another. */
  datatype Step = Step(title: string, declared: nat, owner: nat)

  /** Items are numbered in order of creation, 0 being the root. */
  predicate ValidScript(script: seq<Step>) {
    forall k | 0 <= k < |script| :: script[k].declared <= k && script[k].owner <= k
  }

  /** The items a script adds to the list of item j, in order, among the first k it creates. */
  function OwnedBy(items: seq<TreeItem>, script: seq<Step>, k: nat, j: nat): seq<TreeItem>
    requires k <= |script| && k < |items|
  {
    if k == 0 then []
    else OwnedBy(items, script, k - 1, j) + if script[k - 1].owner == j then [items[k]] else []
  }

  /** The first k items created by a script hang below the owners it names, and nothing else is in any list. */
  ghost predicate Follows(items: seq<TreeItem>, script: seq<Step>, k: nat)
    requires ValidScript(script) && k <= |script| && |items| == k + 1
    reads items
  {
    && (forall j | 0 <= j < k ::
          items[j + 1].parent == items[script[j].owner] && items[j + 1].title == script[j].title)
    && (forall j | 0 <= j <= k :: items[j].children == OwnedBy(items, script, k, j))
  }

  ghost function SetOf(items: seq<TreeItem>): set<TreeItem> {
    set n | n in items
  }

  lemma SetOfSnoc(items: seq<TreeItem>, x: TreeItem)
    ensures SetOf(items + [x]) == SetOf(items) + {x}
    ensures NoDuplicates(items) && x !in items ==> NoDuplicates(items + [x])
  {
  }

  lemma FollowsNone(items: seq<TreeItem>, script: seq<Step>)
    requires ValidScript(script) && |items| == 1 && items[0].children == []
    ensures Follows(items, script, 0)
  {
  }

  lemma {:induction false} OwnedBySnoc(items: seq<TreeItem>, script: seq<Step>, k: nat, j: nat, x: TreeItem)
    requires k <= |script| && k < |items|
    ensures OwnedBy(items + [x], script, k, j) == OwnedBy(items, script, k, j)
  {
    if k == 0 {
    } else {
      OwnedBySnoc(items, script, k - 1, j, x);
    }
  }

  lemma {:induction false} OwnedByLater(items: seq<TreeItem>, script: seq<Step>, k: nat, j: nat)
    requires ValidScript(script) && k <= |script| && k < |items| && j >= k
    ensures OwnedBy(items, script, k, j) == []
  {
    if k == 0 {
    } else {
      OwnedByLater(items, script, k - 1, j);
    }
  }

  lemma ListSnoc(items: seq<TreeItem>, script: seq<Step>, k: nat, j: nat, x: TreeItem)
    requires ValidScript(script) && k < |script| && |items| == k + 1 && j <= k + 1
    ensures OwnedBy(items + [x], script, k + 1, j)
         == if j == k + 1 then [] else OwnedBy(items, script, k, j) + if script[k].owner == j then [x] else []
  {
    var more := items + [x];
    OwnedBySnoc(items, script, k, j, x);
    if j == k + 1 {
      OwnedByLater(more, script, k + 1, j);
    }
    assert more[k + 1] == x;
  }

  /** One more item, added to the end of its owner's list, is one more step followed. */
  lemma FollowsSnoc(items: seq<TreeItem>, script: seq<Step>, k: nat, x: TreeItem)
    requires ValidScript(script) && k < |script| && |items| == k + 1
    requires forall j | 0 <= j < k ::
      items[j + 1].parent == items[script[j].owner] && items[j + 1].title == script[j].title
    requires forall j | 0 <= j <= k ::
      items[j].children == OwnedBy(items, script, k, j) + if script[k].owner == j then [x] else []
    requires x.parent == items[script[k].owner] && x.title == script[k].title && x.children == []
    ensures Follows(items + [x], script, k + 1)
  {
    hide OwnedBy;
    var more := items + [x];
    forall j | 0 <= j < k + 1
      ensures more[j + 1].parent == more[script[j].owner] && more[j + 1].title == script[j].title
    {
      assert script[j].owner <= j;
      if j < k {
        assert more[j + 1] == items[j + 1];
      }
    }
    forall j | 0 <= j <= k + 1
      ensures more[j].children == OwnedBy(more, script, k + 1, j)
    {
      ListSnoc(items, script, k, j, x);
    }
  }

  /** One step of a script. */
  method BuildStep(root: TreeItem, items: seq<TreeItem>, ghost depth: Depths, script: seq<Step>, k: nat,
                   owner: TreeItem)
    returns (item: TreeItem, ghost after: Depths)
    requires ValidScript(script) && k < |script| && |items| == k + 1 && owner == items[script[k].owner]
    requires NoDuplicates(items) && Follows(items, script, k)
    requires HeapTree(root, SetOf(items), depth)
    modifies owner`children
    ensures fresh(item) && item !in items
    ensures HeapTree(root, SetOf(items + [item]), after)
    ensures Follows(items + [item], script, k + 1)
  {
    hide IsTree, DepthsAfter, OwnedBy;
    assert owner in SetOf(items);
    item, after := AddNew(root, SetOf(items), depth, owner, items[script[k].declared], script[k].title);
    SetOfSnoc(items, item);
    assert forall j | 0 <= j <= k && j != script[k].owner :: items[j] != owner;
    FollowsSnoc(items, script, k, item);
  }

  /** Any sequence of addChild calls on fresh items builds a tree in which each item's parent is its list's owner. */
  method Build(root: TreeItem, script: seq<Step>) returns (items: seq<TreeItem>, ghost depth: Depths)
    requires ValidScript(script) && root.children == []
    modifies root`children
    ensures |items| == |script| + 1 && items[0] == root
    ensures NoDuplicates(items) && fresh(SetOf(items) - {root})
    ensures HeapTree(root, SetOf(items), depth)
    ensures Follows(items, script, |script|)
  {
    hide IsTree, OwnedBy, Follows;
    items := [root];
    depth := map[root := 0];
    FreshItemIsTree(root);
    assert SetOf(items) == {root};
    FollowsNone(items, script);
    var k := 0;
    while k < |script|
      invariant 0 <= k <= |script| && |items| == k + 1 && items[0] == root
      invariant NoDuplicates(items) && fresh(SetOf(items) - {root})
      invariant HeapTree(root, SetOf(items), depth)
      invariant Follows(items, script, k)
    {
      var owner := items[script[k].owner];
      assert owner in SetOf(items);
      assert owner == root || owner in SetOf(items) - {root};
      var item, after := BuildStep(root, items, depth, script, k, owner);
      SetOfSnoc(items, item);
      items, depth := items + [item], after;
      k := k + 1;
    }
  }

  // ---------- the Qt adapter ----------

  datatype ModelIndex = Invalid | At(row: int, item: TreeItem)

  /** `delete root`: every item of the tree goes exactly once. */
  method DeleteAll(root: TreeItem, ghost items: set<TreeItem>, ghost depth: Depths) returns (deleted: seq<TreeItem>)
    requires HeapTree(root, items, depth)
    ensures NoDuplicates(deleted)
    ensures forall n :: n in deleted <==> n in items
  {
    ghost var s := ShapeOf(items, depth);
    ghost var h := DepthBound(depth);
    deleted := root.Delete(s, root, h);
    DeletesEachNodeOnce(s, root, h);
    assert s.kids.Keys == items;
  }

  class TreeModel {
    var root: TreeItem?

    constructor ()
      ensures root == null
    {
      root := null;
    }

    function Index(row: int, col: int, p: ModelIndex): ModelIndex
      requires p.Invalid? ==> root != null
      reads this, if p.At? then {p.item} else {root}
    {
      if col != 0 then Invalid else
        var parentItem := if p.Invalid? then root else p.item;
        var childItem := parentItem.Child(row);
        if childItem == null then Invalid else At(row, childItem)
    }

    function Parent(c: ModelIndex): ModelIndex
      reads this, if c.At? then {c.item, c.item.parent} else {}
      reads if c.At? && c.item.parent != null then {c.item.parent.parent} else {}
    {
      if c.Invalid? then Invalid else
        var parentItem := c.item.parent;
        if parentItem == null || parentItem == root then Invalid else At(parentItem.Row(), parentItem)
    }

    function RowCount(p: ModelIndex): nat
      requires p.Invalid? ==> root != null
      reads this, if p.At? then {p.item} else {root}
    {
      if p.Invalid? then root.ChildCount() else p.item.ChildCount()
    }

    /** Replaces the tree; the old one is deleted node by node. */
    method SetPacketTree(newRoot: TreeItem?, ghost items: set<TreeItem>, ghost depth: Depths)
      returns (deleted: seq<TreeItem>)
      requires root != null ==> HeapTree(root, items, depth)
      requires root != null && newRoot != null ==> newRoot !in items
      modifies this
      ensures root == newRoot && NoDuplicates(deleted)
      ensures old(root) != null ==> forall n :: n in deleted <==> n in items
      ensures old(root) == null ==> deleted == []
    {
      deleted := [];
      if root != null {
        deleted := DeleteAll(root, items, depth);
      }
      root := newRoot;
    }

    method Clear(ghost items: set<TreeItem>, ghost depth: Depths) returns (deleted: seq<TreeItem>)
      requires root != null ==> HeapTree(root, items, depth)
      modifies this
      ensures root == null && NoDuplicates(deleted)
      ensures old(root) != null ==> forall n :: n in deleted <==> n in items
      ensures old(root) == null ==> deleted == []
    {
      deleted := [];
      if root != null {
        deleted := DeleteAll(root, items, depth);
        root := null;
      }
    }
  }

  // ---------- the adapter's laws ----------

  ghost predicate Shows(m: TreeModel, items: set<TreeItem>, depth: Depths)
    reads m, items
  {
    m.root != null && HeapTree(m.root, items, depth)
  }

  /** The indexes a view can hold: none, or the row and item of a node below the root. */
  ghost predicate Obtainable(m: TreeModel, items: set<TreeItem>, p: ModelIndex)
    reads m, items
  {
    p.At? ==>
      && p.item in items && p.item != m.root
      && p.item.parent != null && p.item.parent in items
      && 0 <= p.row < |p.item.parent.children| && p.item.parent.children[p.row] == p.item
  }

  /** The index of a node as its parent's adapter entry: none for the root. */
  function IndexFor(m: TreeModel, n: TreeItem): ModelIndex
    reads m, n, n.parent
  {
    if n == m.root then Invalid else At(n.Row(), n)
  }

  lemma RowIsPosition(m: TreeModel, items: set<TreeItem>, depth: Depths, n: TreeItem)
    requires Shows(m, items, depth) && n in items && n != m.root
    ensures Obtainable(m, items, IndexFor(m, n))
  {
    assert HasOwner(ShapeOf(items, depth), n);
  }

  /** A position in a child list is that child's row. */
  lemma PositionIsRow(m: TreeModel, items: set<TreeItem>, depth: Depths, n: TreeItem, r: nat)
    requires Shows(m, items, depth) && n in items && r < |n.children|
    ensures n.children[r] in items && n.children[r] != m.root
    ensures n.children[r].parent == n && n.children[r].Row() == r
    ensures depth[n.children[r]] == depth[n] + 1
  {
    var s := ShapeOf(items, depth);
    assert ChildOf(s, m.root, n, s.kids[n][r]);
    assert NoDuplicates(s.kids[n]);
  }

  /** Going down and up again returns to the same index, for every obtainable index and every row below it. */
  lemma ParentOfIndex(m: TreeModel, items: set<TreeItem>, depth: Depths, p: ModelIndex, r: int)
    requires Shows(m, items, depth) && Obtainable(m, items, p)
    ensures m.Index(r, 0, p).At? <==> 0 <= r < m.RowCount(p)
    ensures forall col | col != 0 :: m.Index(r, col, p).Invalid?
    ensures m.Index(r, 0, p).At? ==>
      Obtainable(m, items, m.Index(r, 0, p)) && m.Parent(m.Index(r, 0, p)) == p
  {
    var n := if p.Invalid? then m.root else p.item;
    if 0 <= r < |n.children| {
      PositionIsRow(m, items, depth, n, r);
      if p.At? {
        PositionIsRow(m, items, depth, p.item.parent, p.row);
      }
    }
  }

  /** Asking a node's parent for the node's row gives the node back; so every index held is (row(), item). */
  lemma Reindex(m: TreeModel, items: set<TreeItem>, depth: Depths, p: ModelIndex)
    requires Shows(m, items, depth) && Obtainable(m, items, p) && p.At?
    ensures m.Index(p.item.Row(), 0, m.Parent(p)) == p
    ensures p == IndexFor(m, p.item)
    ensures Obtainable(m, items, m.Parent(p))
  {
    PositionIsRow(m, items, depth, p.item.parent, p.row);
    if p.item.parent != m.root {
      RowIsPosition(m, items, depth, p.item.parent);
    }
  }

  /** The index a view holds after descending along a path of rows. */
  function Descend(m: TreeModel, path: seq<int>): ModelIndex
    requires m.root != null
    reads *
  {
    if path == [] then Invalid else
      var p := Descend(m, path[..|path| - 1]);
      m.Index(path[|path| - 1], 0, p)
  }

  /** The index reached by k steps to the parent. */
  function Climb(m: TreeModel, p: ModelIndex, k: nat): ModelIndex
    reads *
    decreases k
  {
    if k == 0 then p else Climb(m, m.Parent(p), k - 1)
  }

  /** From any obtainable index, climbing as many steps as the node is deep arrives at no index, and not before. */
  lemma {:induction false} ClimbReachesRoot(m: TreeModel, items: set<TreeItem>, depth: Depths, p: ModelIndex, k: nat)
    requires Shows(m, items, depth) && Obtainable(m, items, p) && p.At?
    requires k <= depth[p.item]
    ensures Climb(m, p, k).Invalid? <==> k == depth[p.item]
    ensures depth[p.item] > 0
    decreases k
  {
    PositionIsRow(m, items, depth, p.item.parent, p.row);
    if k == 0 {
    } else {
      Reindex(m, items, depth, p);
      var q := m.Parent(p);
      if q.At? {
        ClimbReachesRoot(m, items, depth, q, k - 1);
      } else {
        DepthZeroIsRoot(ShapeOf(items, depth), m.root, p.item.parent);
      }
    }
  }

  /** Descending along any rows gives obtainable indexes only. */
  lemma {:induction false} DescendObtainable(m: TreeModel, items: set<TreeItem>, depth: Depths, path: seq<int>)
    requires Shows(m, items, depth)
    ensures Obtainable(m, items, Descend(m, path))
  {
    if path == [] {
    } else {
      var front := path[..|path| - 1];
      DescendObtainable(m, items, depth, front);
      ParentOfIndex(m, items, depth, Descend(m, front), path[|path| - 1]);
    }
  }

  /** ... and every obtainable index is reached by descending along some rows. */
  lemma {:induction false} DescendReaches(m: TreeModel, items: set<TreeItem>, depth: Depths, p: ModelIndex)
    returns (path: seq<int>)
    requires Shows(m, items, depth) && Obtainable(m, items, p)
    ensures Descend(m, path) == p
    decreases if p.At? && p.item in depth then depth[p.item] else 0
  {
    if p.Invalid? {
      path := [];
    } else {
      PositionIsRow(m, items, depth, p.item.parent, p.row);
      Reindex(m, items, depth, p);
      var above := DescendReaches(m, items, depth, m.Parent(p));
      path := above + [p.item.Row()];
      assert path[..|path| - 1] == above;
    }
  }
}
