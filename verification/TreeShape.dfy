/**
 Trees as values: child lists, parent links and depths of a set of nodes. The
 heap of tree items is judged by the shape it has at a moment.
 */
module TreeShape {
  import opened Wrappers

  datatype Shape<T> = Shape(kids: map<T, seq<T>>, up: map<T, Option<T>>, depth: map<T, nat>)

  ghost predicate NoDuplicates<T>(s: seq<T>) {
    forall i, j | 0 <= i < j < |s| :: s[i] != s[j]
  }

  /** c stands in n's child list: then n is its parent, and it lies one level deeper. */
  ghost predicate ChildOf<T>(s: Shape<T>, root: T, n: T, c: T)
    requires n in s.depth
  {
    && c in s.kids && c in s.up && c in s.depth
    && c != root && s.up[c] == Some(n) && s.depth[c] == s.depth[n] + 1
  }

  /** n stands in the list of the node it names as its parent. */
  ghost predicate HasOwner<T>(s: Shape<T>, n: T)
    requires n in s.up
  {
    s.up[n].Some? && s.up[n].value in s.kids && n in s.kids[s.up[n].value]
  }

  /**
   A tree: every child names the owner of its list as its parent, every node but the
   root stands in its parent's list, and no list repeats a node. The root's own parent link is free.
   */
  ghost predicate IsTree<T>(s: Shape<T>, root: T) {
    && s.kids.Keys == s.up.Keys == s.depth.Keys
    && root in s.kids && s.depth[root] == 0
    && (forall n, c | n in s.kids && c in s.kids[n] :: ChildOf(s, root, n, c))
    && (forall n {:trigger HasOwner(s, n)} | n in s.kids && n != root :: HasOwner(s, n))
    && (forall n | n in s.kids :: NoDuplicates(s.kids[n]))
  }

  lemma KidsAreChildren<T>(s: Shape<T>, root: T, n: T)
    requires IsTree(s, root) && n in s.kids
    ensures n in s.depth
    ensures forall i | 0 <= i < |s.kids[n]| :: s.kids[n][i] in s.kids && ChildOf(s, root, n, s.kids[n][i])
  {
    forall i | 0 <= i < |s.kids[n]|
      ensures s.kids[n][i] in s.kids && ChildOf(s, root, n, s.kids[n][i])
    {
      assert s.kids[n][i] in s.kids[n];
    }
  }

  /** Child lists of different nodes are disjoint. */
  lemma ListsDisjoint<T>(s: Shape<T>, root: T, n: T, m: T, c: T)
    requires IsTree(s, root) && n in s.kids && m in s.kids
    requires c in s.kids[n] && c in s.kids[m]
    ensures n == m
  {
    assert ChildOf(s, root, n, c) && ChildOf(s, root, m, c);
  }

  // ---------- attaching ----------

  /** The shape after n.addChild(c), where c is the root of a separate tree t. */
  function Attach<T>(s: Shape<T>, n: T, t: Shape<T>, c: T): Shape<T>
    requires n in s.kids && n in s.depth
  {
    Shape(s.kids[n := s.kids[n] + [c]] + t.kids,
          s.up + t.up[c := Some(n)],
          s.depth + (map m | m in t.depth :: t.depth[m] + s.depth[n] + 1))
  }

  /** Two separate trees, and a node of the first. */
  ghost predicate Separate<T>(s: Shape<T>, root: T, n: T, t: Shape<T>, c: T) {
    IsTree(s, root) && IsTree(t, c) && n in s.kids && s.kids.Keys !! t.kids.Keys
  }

  ghost predicate SameKeys<T>(s: Shape<T>) {
    s.kids.Keys == s.up.Keys == s.depth.Keys
  }

  /** x has the list, the parent link and the depth given. */
  ghost predicate Looks<T>(r: Shape<T>, x: T, kids: seq<T>, up: Option<T>, depth: nat) {
    && x in r.kids && x in r.up && x in r.depth
    && r.kids[x] == kids && r.up[x] == up && r.depth[x] == depth
  }

  /** A node of the attached tree keeps its list; its root hangs below n now, and all lie deeper. */
  lemma AttachedBelow<T>(s: Shape<T>, n: T, t: Shape<T>, c: T, x: T)
    requires SameKeys(s) && SameKeys(t) && s.kids.Keys !! t.kids.Keys && n in s.kids && c in t.kids
    requires x in t.kids
    ensures Looks(Attach(s, n, t, c), x, t.kids[x], if x == c then Some(n) else t.up[x], t.depth[x] + s.depth[n] + 1)
  {
  }

  /** A node of the tree attached to looks as before, but for the new child of n. */
  lemma AttachedAbove<T>(s: Shape<T>, n: T, t: Shape<T>, c: T, x: T)
    requires SameKeys(s) && SameKeys(t) && s.kids.Keys !! t.kids.Keys && n in s.kids && c in t.kids
    requires x in s.kids
    ensures Looks(Attach(s, n, t, c), x, if x == n then s.kids[n] + [c] else s.kids[x], s.up[x], s.depth[x])
  {
  }

  lemma AttachedKeys<T>(s: Shape<T>, n: T, t: Shape<T>, c: T)
    requires SameKeys(s) && SameKeys(t) && n in s.kids && c in t.kids
    ensures SameKeys(Attach(s, n, t, c)) && Attach(s, n, t, c).kids.Keys == s.kids.Keys + t.kids.Keys
  {
  }

  lemma AttachedChild<T>(s: Shape<T>, root: T, n: T, t: Shape<T>, c: T, m: T, d: T)
    requires Separate(s, root, n, t, c)
    requires var r := Attach(s, n, t, c); m in r.kids && d in r.kids[m]
    ensures m in Attach(s, n, t, c).depth && ChildOf(Attach(s, n, t, c), root, m, d)
  {
    hide NoDuplicates, HasOwner, Attach;
    AttachedKeys(s, n, t, c);
    if m in t.kids {
      AttachedBelow(s, n, t, c, m);
      assert ChildOf(t, c, m, d);
      AttachedBelow(s, n, t, c, d);
    } else {
      AttachedAbove(s, n, t, c, m);
      if d in s.kids[m] {
        assert ChildOf(s, root, m, d);
        AttachedAbove(s, n, t, c, d);
      } else {
        AttachedBelow(s, n, t, c, c);
      }
    }
  }

  lemma AttachedOwner<T>(s: Shape<T>, root: T, n: T, t: Shape<T>, c: T, m: T)
    requires Separate(s, root, n, t, c) && m in Attach(s, n, t, c).kids && m != root
    ensures m in Attach(s, n, t, c).up && HasOwner(Attach(s, n, t, c), m)
  {
    hide NoDuplicates, ChildOf, Attach;
    AttachedKeys(s, n, t, c);
    if m in t.kids {
      AttachedBelow(s, n, t, c, m);
      if m == c {
        AttachedAbove(s, n, t, c, n);
      } else {
        assert HasOwner(t, m);
        AttachedBelow(s, n, t, c, t.up[m].value);
      }
    } else {
      AttachedAbove(s, n, t, c, m);
      assert HasOwner(s, m);
      AttachedAbove(s, n, t, c, s.up[m].value);
    }
  }

  lemma AttachedNoDuplicates<T>(s: Shape<T>, root: T, n: T, t: Shape<T>, c: T, m: T)
    requires Separate(s, root, n, t, c) && m in Attach(s, n, t, c).kids
    ensures NoDuplicates(Attach(s, n, t, c).kids[m])
  {
    hide HasOwner, Attach;
    AttachedKeys(s, n, t, c);
    if m in t.kids {
      AttachedBelow(s, n, t, c, m);
      assert NoDuplicates(t.kids[m]);
    } else {
      AttachedAbove(s, n, t, c, m);
      assert NoDuplicates(s.kids[m]);
      assert c in s.kids[m] ==> ChildOf(s, root, m, c);
    }
  }

  /** Adding the root of any separate tree below any node gives a tree, whatever parent the new child named before. */
  lemma AttachKeepsTree<T>(s: Shape<T>, root: T, n: T, t: Shape<T>, c: T)
    requires IsTree(s, root) && IsTree(t, c) && n in s.kids
    requires s.kids.Keys !! t.kids.Keys
    ensures IsTree(Attach(s, n, t, c), root)
  {
    var r := Attach(s, n, t, c);
    assert Separate(s, root, n, t, c);
    AttachedKeys(s, n, t, c);
    AttachedAbove(s, n, t, c, root);
    hide Separate, Attach, NoDuplicates, HasOwner, ChildOf;
    forall m, d | m in r.kids && d in r.kids[m]
      ensures ChildOf(r, root, m, d)
    {
      AttachedChild(s, root, n, t, c, m, d);
    }
    forall m | m in r.kids && m != root
      ensures HasOwner(r, m)
    {
      AttachedOwner(s, root, n, t, c, m);
    }
    forall m | m in r.kids
      ensures NoDuplicates(r.kids[m])
    {
      AttachedNoDuplicates(s, root, n, t, c, m);
    }
  }

  // ---------- ancestors ----------

  lemma DepthZeroIsRoot<T>(s: Shape<T>, root: T, n: T)
    requires IsTree(s, root) && n in s.kids
    ensures s.depth[n] == 0 <==> n == root
  {
    if n != root {
      assert HasOwner(s, n);
      assert ChildOf(s, root, s.up[n].value, n);
    }
  }

  /** The k-th ancestor. */
  ghost function Ancestor<T>(s: Shape<T>, root: T, n: T, k: nat): (a: T)
    requires IsTree(s, root) && n in s.kids && k <= s.depth[n]
    ensures a in s.kids && s.depth[a] == s.depth[n] - k
  {
    if k == 0 then n else
      DepthZeroIsRoot(s, root, n);
      assert HasOwner(s, n);
      var p := s.up[n].value;
      assert ChildOf(s, root, p, n);
      Ancestor(s, root, p, k - 1)
  }

  /** Every parent chain reaches the root, after exactly as many steps as the node is deep. */
  lemma ChainReachesRoot<T>(s: Shape<T>, root: T, n: T, k: nat)
    requires IsTree(s, root) && n in s.kids && k <= s.depth[n]
    ensures Ancestor(s, root, n, k) == root <==> k == s.depth[n]
  {
    DepthZeroIsRoot(s, root, Ancestor(s, root, n, k));
  }

  lemma {:induction false} AncestorStep<T>(s: Shape<T>, root: T, n: T, k: nat)
    requires IsTree(s, root) && n in s.kids && k < s.depth[n]
    ensures Ancestor(s, root, n, k) != root
    ensures Some(Ancestor(s, root, n, k + 1)) == s.up[Ancestor(s, root, n, k)]
  {
    DepthZeroIsRoot(s, root, Ancestor(s, root, n, k));
    DepthZeroIsRoot(s, root, n);
    assert HasOwner(s, n);
    if k == 0 {
    } else {
      var p := s.up[n].value;
      assert ChildOf(s, root, p, n);
      AncestorStep(s, root, p, k - 1);
    }
  }

  // ---------- the order in which a destructor deletes ----------

  ghost predicate Bounded<T>(s: Shape<T>, h: nat) {
    forall n | n in s.depth :: s.depth[n] <= h
  }

  lemma DepthBound<T>(d: map<T, nat>) returns (h: nat)
    ensures forall n | n in d :: d[n] <= h
  {
    h := 0;
    var rest := d.Keys;
    while rest != {}
      invariant rest <= d.Keys
      invariant forall n | n in d && n !in rest :: d[n] <= h
      decreases rest
    {
      var n :| n in rest;
      h := if d[n] > h then d[n] else h;
      rest := rest - {n};
    }
  }

  /** The nodes deleted below and including n: the children's subtrees in list order, then n. */
  ghost function PostOrder<T>(s: Shape<T>, root: T, h: nat, n: T): seq<T>
    requires IsTree(s, root) && Bounded(s, h) && n in s.kids
    decreases h - s.depth[n], |s.kids[n]| + 1
  {
    PostOrderKids(s, root, h, n, |s.kids[n]|) + [n]
  }

  /** ... and those of n's first k children. */
  ghost function PostOrderKids<T>(s: Shape<T>, root: T, h: nat, n: T, k: nat): seq<T>
    requires IsTree(s, root) && Bounded(s, h) && n in s.kids && k <= |s.kids[n]|
    decreases h - s.depth[n], k
  {
    if k == 0 then [] else
      var c := s.kids[n][k - 1];
      assert ChildOf(s, root, n, c);
      PostOrderKids(s, root, h, n, k - 1) + PostOrder(s, root, h, c)
  }

  /** m lies in the subtree of n. */
  ghost predicate Below<T>(s: Shape<T>, root: T, n: T, m: T)
    requires IsTree(s, root) && n in s.kids
  {
    m in s.kids && s.depth[m] >= s.depth[n] && Ancestor(s, root, m, s.depth[m] - s.depth[n]) == n
  }

  lemma BelowChild<T>(s: Shape<T>, root: T, n: T, c: T, m: T)
    requires IsTree(s, root) && n in s.kids && c in s.kids[n]
    requires ChildOf(s, root, n, c) && Below(s, root, c, m)
    ensures Below(s, root, n, m) && m != n
  {
    AncestorStep(s, root, m, s.depth[m] - s.depth[c]);
  }

  lemma BelowSomeChild<T>(s: Shape<T>, root: T, n: T, m: T) returns (c: T)
    requires IsTree(s, root) && n in s.kids && Below(s, root, n, m) && m != n
    ensures c in s.kids[n] && ChildOf(s, root, n, c) && Below(s, root, c, m)
  {
    if s.depth[m] == s.depth[n] {
      assert false;
    }
    var k := s.depth[m] - s.depth[n] - 1;
    c := Ancestor(s, root, m, k);
    AncestorStep(s, root, m, k);
    assert HasOwner(s, c);
  }

  /** m lies below one of the first k children of n. */
  ghost predicate BelowKids<T>(s: Shape<T>, root: T, n: T, k: nat, m: T)
    requires IsTree(s, root) && n in s.kids && k <= |s.kids[n]|
  {
    KidsAreChildren(s, root, n);
    exists i :: 0 <= i < k && Below(s, root, s.kids[n][i], m)
  }

  lemma KidsLieBelow<T>(s: Shape<T>, root: T, h: nat, n: T, k: nat, m: T)
    requires IsTree(s, root) && Bounded(s, h) && n in s.kids && k <= |s.kids[n]|
    requires BelowKids(s, root, n, k, m)
    ensures Below(s, root, n, m) && m != n
  {
    KidsAreChildren(s, root, n);
    var i :| 0 <= i < k && Below(s, root, s.kids[n][i], m);
    BelowChild(s, root, n, s.kids[n][i], m);
  }

  lemma PostOrderMembers<T>(s: Shape<T>, root: T, h: nat, n: T, m: T)
    requires IsTree(s, root) && Bounded(s, h) && n in s.kids
    ensures m in PostOrder(s, root, h, n) <==> Below(s, root, n, m)
    decreases h - s.depth[n], |s.kids[n]| + 1
  {
    PostOrderKidsMembers(s, root, h, n, |s.kids[n]|, m);
    if Below(s, root, n, m) && m != n {
      var c := BelowSomeChild(s, root, n, m);
      var i :| 0 <= i < |s.kids[n]| && s.kids[n][i] == c;
    }
    if m in PostOrderKids(s, root, h, n, |s.kids[n]|) {
      KidsLieBelow(s, root, h, n, |s.kids[n]|, m);
    }
  }

  lemma {:induction false} PostOrderKidsMembers<T>(s: Shape<T>, root: T, h: nat, n: T, k: nat, m: T)
    requires IsTree(s, root) && Bounded(s, h) && n in s.kids && k <= |s.kids[n]|
    ensures m in PostOrderKids(s, root, h, n, k) <==> BelowKids(s, root, n, k, m)
    decreases h - s.depth[n], k
  {
    KidsAreChildren(s, root, n);
    hide IsTree, Bounded, Below;
    if k == 0 {
    } else {
      var c := s.kids[n][k - 1];
      assert PostOrderKids(s, root, h, n, k) == PostOrderKids(s, root, h, n, k - 1) + PostOrder(s, root, h, c);
      hide PostOrder, PostOrderKids;
      PostOrderKidsMembers(s, root, h, n, k - 1, m);
      PostOrderMembers(s, root, h, c, m);
    }
  }

  lemma {:induction false} PostOrderNoDuplicates<T>(s: Shape<T>, root: T, h: nat, n: T)
    requires IsTree(s, root) && Bounded(s, h) && n in s.kids
    ensures NoDuplicates(PostOrder(s, root, h, n))
    decreases h - s.depth[n], |s.kids[n]| + 1
  {
    PostOrderKidsNoDuplicates(s, root, h, n, |s.kids[n]|);
    PostOrderKidsMembers(s, root, h, n, |s.kids[n]|, n);
    if BelowKids(s, root, n, |s.kids[n]|, n) {
      KidsLieBelow(s, root, h, n, |s.kids[n]|, n);
      assert false;
    }
  }

  lemma ConcatNoDuplicates<T>(v: seq<T>, w: seq<T>)
    requires NoDuplicates(v) && NoDuplicates(w)
    requires forall m | m in w :: m !in v
    ensures NoDuplicates(v + w)
  {
    forall i, j | 0 <= i < j < |v + w|
      ensures (v + w)[i] != (v + w)[j]
    {
      if i < |v| <= j {
        assert w[j - |v|] in w && v[i] in v;
      }
    }
  }

  lemma SiblingsDisjoint<T>(s: Shape<T>, root: T, n: T, k: nat, m: T)
    requires IsTree(s, root) && n in s.kids && 0 < k <= |s.kids[n]|
    requires s.kids[n][k - 1] in s.kids && Below(s, root, s.kids[n][k - 1], m)
    ensures !BelowKids(s, root, n, k - 1, m)
  {
    KidsAreChildren(s, root, n);
    assert NoDuplicates(s.kids[n]);
    forall i | 0 <= i < k - 1
      ensures !Below(s, root, s.kids[n][i], m)
    {
      assert ChildOf(s, root, n, s.kids[n][i]) && ChildOf(s, root, n, s.kids[n][k - 1]);
      assert s.kids[n][i] != s.kids[n][k - 1];
    }
  }

  lemma {:induction false} PostOrderKidsNoDuplicates<T>(s: Shape<T>, root: T, h: nat, n: T, k: nat)
    requires IsTree(s, root) && Bounded(s, h) && n in s.kids && k <= |s.kids[n]|
    ensures NoDuplicates(PostOrderKids(s, root, h, n, k))
    decreases h - s.depth[n], k
  {
    KidsAreChildren(s, root, n);
    hide IsTree, Bounded, Below, BelowKids;
    if k == 0 {
    } else {
      var c := s.kids[n][k - 1];
      var front, back := PostOrderKids(s, root, h, n, k - 1), PostOrder(s, root, h, c);
      assert PostOrderKids(s, root, h, n, k) == front + back;
      hide PostOrder, PostOrderKids, NoDuplicates;
      PostOrderKidsNoDuplicates(s, root, h, n, k - 1);
      PostOrderNoDuplicates(s, root, h, c);
      forall m | m in back
        ensures m !in front
      {
        PostOrderKidsMembers(s, root, h, n, k - 1, m);
        PostOrderMembers(s, root, h, c, m);
        SiblingsDisjoint(s, root, n, k, m);
      }
      ConcatNoDuplicates(front, back);
    }
  }

  // ---------- children before their parents ----------

  /** No node of p is followed by one of its children. */
  ghost predicate ChildrenFirst<T>(s: Shape<T>, p: seq<T>) {
    forall i, j | 0 <= i < j < |p| && p[i] in s.kids :: p[j] !in s.kids[p[i]]
  }

  lemma ConcatChildrenFirst<T>(s: Shape<T>, v: seq<T>, w: seq<T>)
    requires ChildrenFirst(s, v) && ChildrenFirst(s, w)
    requires forall x, y | x in v && y in w && x in s.kids :: y !in s.kids[x]
    ensures ChildrenFirst(s, v + w)
  {
    var p := v + w;
    forall i, j | 0 <= i < j < |p| && p[i] in s.kids
      ensures p[j] !in s.kids[p[i]]
    {
      if i < |v| <= j {
        assert v[i] in v && w[j - |v|] in w;
      }
    }
  }

  lemma BelowThroughParent<T>(s: Shape<T>, root: T, a: T, x: T, y: T)
    requires IsTree(s, root) && a in s.kids && Below(s, root, a, x)
    ensures y in s.kids[x] ==> Below(s, root, a, y) && y != a
  {
    if y in s.kids[x] {
      assert ChildOf(s, root, x, y);
    }
  }

  /** A child of a node below an earlier sibling is not below a later one. */
  lemma NoCrossing<T>(s: Shape<T>, root: T, n: T, k: nat, x: T, y: T)
    requires IsTree(s, root) && n in s.kids && 0 < k <= |s.kids[n]|
    requires s.kids[n][k - 1] in s.kids && Below(s, root, s.kids[n][k - 1], y)
    requires BelowKids(s, root, n, k - 1, x) && x in s.kids
    ensures y !in s.kids[x]
  {
    KidsAreChildren(s, root, n);
    SiblingsDisjoint(s, root, n, k, y);
    var i :| 0 <= i < k - 1 && Below(s, root, s.kids[n][i], x);
    BelowThroughParent(s, root, s.kids[n][i], x, y);
  }

  lemma ParentIsNotBelow<T>(s: Shape<T>, root: T, n: T, x: T)
    requires IsTree(s, root) && n in s.kids && Below(s, root, n, x)
    ensures n !in s.kids[x]
  {
    BelowThroughParent(s, root, n, x, n);
  }

  lemma {:induction false} PostOrderChildrenFirst<T>(s: Shape<T>, root: T, h: nat, n: T)
    requires IsTree(s, root) && Bounded(s, h) && n in s.kids
    ensures ChildrenFirst(s, PostOrder(s, root, h, n))
    decreases h - s.depth[n], |s.kids[n]| + 1
  {
    var below := PostOrderKids(s, root, h, n, |s.kids[n]|);
    PostOrderKidsChildrenFirst(s, root, h, n, |s.kids[n]|);
    hide IsTree, Bounded, Below, BelowKids, PostOrderKids;
    forall x | x in below && x in s.kids
      ensures n !in s.kids[x]
    {
      PostOrderKidsMembers(s, root, h, n, |s.kids[n]|, x);
      KidsLieBelow(s, root, h, n, |s.kids[n]|, x);
      ParentIsNotBelow(s, root, n, x);
    }
    assert ChildrenFirst(s, [n]);
    ConcatChildrenFirst(s, below, [n]);
  }

  lemma {:induction false} PostOrderKidsChildrenFirst<T>(s: Shape<T>, root: T, h: nat, n: T, k: nat)
    requires IsTree(s, root) && Bounded(s, h) && n in s.kids && k <= |s.kids[n]|
    ensures ChildrenFirst(s, PostOrderKids(s, root, h, n, k))
    decreases h - s.depth[n], k
  {
    KidsAreChildren(s, root, n);
    hide IsTree, Bounded, Below, BelowKids;
    if k == 0 {
    } else {
      var c := s.kids[n][k - 1];
      var front, back := PostOrderKids(s, root, h, n, k - 1), PostOrder(s, root, h, c);
      assert PostOrderKids(s, root, h, n, k) == front + back;
      hide PostOrder, PostOrderKids, ChildrenFirst;
      PostOrderKidsChildrenFirst(s, root, h, n, k - 1);
      PostOrderChildrenFirst(s, root, h, c);
      forall x, y | x in front && y in back && x in s.kids
        ensures y !in s.kids[x]
      {
        PostOrderKidsMembers(s, root, h, n, k - 1, x);
        PostOrderMembers(s, root, h, c, y);
        NoCrossing(s, root, n, k, x, y);
      }
      ConcatChildrenFirst(s, front, back);
    }
  }

  /** The destructor of the root deletes every node of the tree exactly once, and no node before its children. */
  lemma DeletesEachNodeOnce<T>(s: Shape<T>, root: T, h: nat)
    requires IsTree(s, root) && Bounded(s, h)
    ensures NoDuplicates(PostOrder(s, root, h, root))
    ensures ChildrenFirst(s, PostOrder(s, root, h, root))
    ensures forall m :: m in PostOrder(s, root, h, root) <==> m in s.kids
  {
    PostOrderNoDuplicates(s, root, h, root);
    PostOrderChildrenFirst(s, root, h, root);
    hide PostOrder, NoDuplicates, ChildrenFirst;
    forall m
      ensures m in PostOrder(s, root, h, root) <==> m in s.kids
    {
      PostOrderMembers(s, root, h, root, m);
      if m in s.kids {
        DepthZeroIsRoot(s, root, Ancestor(s, root, m, s.depth[m]));
      }
    }
  }
}
