/** The descent loop that the cache and the authenticator share in form. */
module Search {
  import opened Basics
  import opened RbShape
  import opened RbStore
  import opened RbTree
  import opened KeyOrder
  import opened SearchTree

  /** The tree is valid and its walk is sorted by the names in `key`. */
  ghost predicate SortedTree(tree: RBTree, ord: Order, key: Keys)
    reads tree
  {
    tree.Valid() && Sorted(ord, key, tree.Nodes())
  }

  /** Where a missing name belongs: the empty slot `link` below `parent`. */
  ghost predicate EmptySlot(tree: RBTree, ord: Order, key: Keys, name: Name, parent: Ptr, link: Slot, c: Ctx)
    reads tree
  {
    && Searching(tree.mem, tree.root, ord, key, tree.Nodes(), name, c, NULL, Leaf)
    && Plug(c, Leaf) == tree.tree && parent == ParentOf(c) && link == SlotOf(c)
  }

  /** The loop invariant of the descent. */
  ghost predicate At(tree: RBTree, ord: Order, key: Keys, name: Name, c: Ctx, p: Ptr, t: Tree)
    reads tree
  {
    && Searching(tree.mem, tree.root, ord, key, tree.Nodes(), name, c, p, t)
    && Plug(c, t) == tree.tree && p == RootOf(t) && (t.Node? ==> p != NULL)
  }

  /** One step down: a smaller name sends the search to the left. */
  method Below(tree: RBTree, ord: Order, key: Keys, name: Name, p: Ptr, res: int, ghost c: Ctx, ghost t: Tree)
    returns (p': Ptr, link: Slot, ghost c': Ctx, ghost t': Tree)
    requires At(tree, ord, key, name, c, p, t) && t.Node?
    requires p in key && res == Compare(ord, key[p], name) && res != 0
    ensures At(tree, ord, key, name, c', p', t') && t' < t
    ensures ParentOf(c') == p && link == SlotOf(c') && Depth(c') == Depth(c) + 1
  {
    Open(tree.mem, p, ParentOf(c), t);
    RootInIds(t.left);
    RootInIds(t.right);
    if res < 0 {
      SearchLeft(tree.mem, tree.root, ord, key, tree.Nodes(), name, c, p, t);
      c', t' := InLeft(c, t.id, t.color, t.right), t.left;
      link := LeftOf(p);
      p' := tree.mem[p].left;
    } else {
      SearchRight(tree.mem, tree.root, ord, key, tree.Nodes(), name, c, p, t);
      c', t' := InRight(c, t.id, t.color, t.left), t.right;
      link := RightOf(p);
      p' := tree.mem[p].right;
    }
  }

  /** Descends from the root: finds the node with the given name, or else the slot
      where it belongs, in at most 2*log2(n + 1) comparisons. */
  method Descend(tree: RBTree, ord: Order, key: Keys, name: Name)
    returns (hit: Ptr, parent: Ptr, link: Slot, ghost c: Ctx, ghost steps: nat)
    requires SortedTree(tree, ord, key)
    ensures hit != NULL ==> hit in tree.Nodes() && hit in key && key[hit] == name
    ensures hit == NULL ==> EmptySlot(tree, ord, key, name, parent, link, c)
    ensures Pow2((steps + 1) / 2) <= |tree.Nodes()| + 1
  {
    ghost var t := tree.tree;
    var p := tree.root;
    parent, link, c, steps := NULL, RootSlot, Top, 0;
    RootCell(tree.mem, p, NULL, t);
    RootInIds(t);
    assert Walk(Top, t) == tree.Nodes();
    while p != NULL
      invariant At(tree, ord, key, name, c, p, t)
      invariant parent == ParentOf(c) && link == SlotOf(c) && steps == Depth(c)
      decreases t
    {
      SortedParts(ord, key, c, t);
      var res := Compare(ord, key[p], name);
      steps := steps + 1;
      if res == 0 {
        hit := p;
        CompareTotal(ord, key[p], name, name);
        FocusInWalk(c, t);
        break;
      }
      parent := p;
      p, link, c, t := Below(tree, ord, key, name, p, res, c, t);
    }
    if p == NULL {
      hit := NULL;
    }
    DepthPlug(c, t);
    ShortDescent(tree.tree, steps);
  }

  lemma {:induction false} FocusInWalk(c: Ctx, t: Tree)
    requires t.Node?
    ensures t.id in Walk(c, t)
  {
    assert InOrder(t)[|InOrder(t.left)|] == t.id;
    assert Walk(c, t)[|Before(c)| + |InOrder(t.left)|] == t.id;
  }

  lemma {:induction false} ShortDescent(t: Tree, steps: nat)
    requires ValidRb(t) && steps <= Height(t)
    ensures Pow2((steps + 1) / 2) <= |InOrder(t)| + 1
  {
    HeightBound(t);
    Pow2Monotone((steps + 1) / 2, (Height(t) + 1) / 2);
  }

  /** Links and rebalances a fresh node at the slot the descent found. */
  method InsertAt(tree: RBTree, ord: Order, key: Keys, name: Name, node: Ptr, parent: Ptr, link: Slot, ghost c: Ctx)
    requires SortedTree(tree, ord, key) && EmptySlot(tree, ord, key, name, parent, link, c)
    requires node != NULL && node !in tree.Nodes()
    modifies tree
    ensures SortedTree(tree, ord, key[node := name])
    ensures forall q :: q in tree.Nodes() <==> q == node || q in old(tree.Nodes())
    ensures forall q :: q in old(tree.Nodes()) ==> key[q] != name
  {
    ghost var nodes := tree.Nodes();
    SearchMiss(ord, key, nodes, name, c, node);
    WalkPlug(c, Leaf);
    UnplugRb(c, Leaf);
    assert node !in CtxIds(c) by {
      PlugIds(c, Leaf);
      IdsInOrder(tree.tree, node);
    }
    tree.Link(node, parent, link, c);
    tree.InsertColor(node, c);
    assert nodes == Before(c) + After(c);
  }

  /** Erases a node; the others stay sorted. */
  method EraseNode(tree: RBTree, ord: Order, ghost key: Keys, node: Ptr)
    requires SortedTree(tree, ord, key) && node in tree.Nodes()
    modifies tree
    ensures SortedTree(tree, ord, key)
    ensures forall q :: q in tree.Nodes() <==> q in old(tree.Nodes()) && q != node
    ensures |tree.Nodes()| == |old(tree.Nodes())| - 1
  {
    ghost var nodes := tree.Nodes();
    DistinctIffNoDups(tree.tree);
    tree.Erase(node);
    ghost var a, b :| nodes == a + [node] + b && tree.Nodes() == a + b;
    SortedWithout(ord, key, a, node, b);
    NoDupsWithoutNode(a, node, b);
  }

  lemma {:induction false} NoDupsWithoutNode(a: seq<Ptr>, x: Ptr, b: seq<Ptr>)
    requires NoDups(a + [x] + b)
    ensures forall q :: q in a + b <==> q in a + [x] + b && q != x
  {
    NoDupsAppend(a + [x], b);
    NoDupsAppend(a, [x]);
  }

  /** Names of other nodes do not matter. */
  lemma {:induction false} SortedSameNames(ord: Order, key: Keys, key': Keys, s: seq<Ptr>)
    requires Sorted(ord, key, s)
    requires forall i {:trigger s[i]} :: 0 <= i < |s| ==> s[i] in key' && key'[s[i]] == key[s[i]]
    ensures Sorted(ord, key', s)
  {
  }
}
