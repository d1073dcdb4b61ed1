/** Descending a red-black tree whose in-order walk is sorted by name. Both trees of
    the program put larger names on the left, so walks are strictly descending. */
module SearchTree {
  import opened RbShape
  import opened RbStore
  import opened KeyOrder

  type Keys = map<Ptr, Name>

  ghost predicate Keyed(key: Keys, s: seq<Ptr>) {
    forall i :: 0 <= i < |s| ==> s[i] in key
  }

  ghost predicate Descending(ord: Order, key: Keys, s: seq<Ptr>)
    requires Keyed(key, s)
  {
    forall i, j :: 0 <= i < j < |s| ==> Compare(ord, key[s[j]], key[s[i]]) < 0
  }

  ghost predicate Sorted(ord: Order, key: Keys, s: seq<Ptr>) {
    Keyed(key, s) && Descending(ord, key, s)
  }

  /** Every name in `a` is above every name in `b`. */
  ghost predicate Above(ord: Order, key: Keys, a: seq<Ptr>, b: seq<Ptr>)
    requires Keyed(key, a) && Keyed(key, b)
  {
    forall i, j :: 0 <= i < |a| && 0 <= j < |b| ==> Compare(ord, key[b[j]], key[a[i]]) < 0
  }

  lemma {:induction false} SortedAppend(ord: Order, key: Keys, a: seq<Ptr>, b: seq<Ptr>)
    ensures Sorted(ord, key, a + b) <==> Sorted(ord, key, a) && Sorted(ord, key, b) && Above(ord, key, a, b)
  {
    var s := a + b;
    if Sorted(ord, key, s) {
      forall i | 0 <= i < |a| ensures a[i] in key { assert s[i] == a[i]; }
      forall i | 0 <= i < |b| ensures b[i] in key { assert s[|a| + i] == b[i]; }
      forall i, j | 0 <= i < j < |a| ensures Compare(ord, key[a[j]], key[a[i]]) < 0 {
        assert s[i] == a[i] && s[j] == a[j];
      }
      forall i, j | 0 <= i < j < |b| ensures Compare(ord, key[b[j]], key[b[i]]) < 0 {
        assert s[|a| + i] == b[i] && s[|a| + j] == b[j];
      }
      forall i, j | 0 <= i < |a| && 0 <= j < |b| ensures Compare(ord, key[b[j]], key[a[i]]) < 0 {
        assert s[i] == a[i] && s[|a| + j] == b[j];
      }
    }
    if Sorted(ord, key, a) && Sorted(ord, key, b) && Above(ord, key, a, b) {
      forall i | 0 <= i < |s| ensures s[i] in key {
        assert s[i] == if i < |a| then a[i] else b[i - |a|];
      }
      forall i, j | 0 <= i < j < |s| ensures Compare(ord, key[s[j]], key[s[i]]) < 0 {
        assert s[i] == if i < |a| then a[i] else b[i - |a|];
        assert s[j] == if j < |a| then a[j] else b[j - |a|];
      }
    }
  }

  /** All names in `s` are above, respectively below, `name`. */
  ghost predicate AllAbove(ord: Order, key: Keys, s: seq<Ptr>, name: Name) {
    forall i {:trigger s[i]} :: 0 <= i < |s| ==> s[i] in key && Compare(ord, key[s[i]], name) > 0
  }

  ghost predicate AllBelow(ord: Order, key: Keys, s: seq<Ptr>, name: Name) {
    forall i {:trigger s[i]} :: 0 <= i < |s| ==> s[i] in key && Compare(ord, key[s[i]], name) < 0
  }

  /** The search has come to the subtree `t` at `p`; the name is nowhere else. */
  ghost predicate Searching(m: Mem, root: Ptr, ord: Order, key: Keys, nodes: seq<Ptr>, name: Name, c: Ctx, p: Ptr,
                            t: Tree) {
    && Layout(m, root, c, p, t) && Walk(c, t) == nodes && Sorted(ord, key, nodes)
    && AllAbove(ord, key, Before(c), name) && AllBelow(ord, key, After(c), name)
  }

  /** The parts of a sorted walk around the root of the focus. */
  lemma {:induction false} SortedParts(ord: Order, key: Keys, c: Ctx, t: Tree)
    requires t.Node? && Sorted(ord, key, Walk(c, t))
    ensures t.id in key && Sorted(ord, key, InOrder(t.left)) && Sorted(ord, key, InOrder(t.right))
    ensures Above(ord, key, InOrder(t.left), [t.id]) && Above(ord, key, [t.id], InOrder(t.right))
  {
    SortedAppend(ord, key, Before(c) + InOrder(t), After(c));
    SortedAppend(ord, key, Before(c), InOrder(t));
    SortedAppend(ord, key, InOrder(t.left) + [t.id], InOrder(t.right));
    SortedAppend(ord, key, InOrder(t.left), [t.id]);
    assert [t.id][0] in key;
    forall i, j | 0 <= i < 1 && 0 <= j < |InOrder(t.right)|
      ensures Compare(ord, key[InOrder(t.right)[j]], key[[t.id][i]]) < 0
    {
      assert (InOrder(t.left) + [t.id])[|InOrder(t.left)|] == t.id;
    }
  }

  /** One step down to the left: the node's name is below the searched one. */
  lemma {:induction false} SearchLeft(m: Mem, root: Ptr, ord: Order, key: Keys, nodes: seq<Ptr>, name: Name, c: Ctx,
                                      p: Ptr, t: Tree)
    requires Searching(m, root, ord, key, nodes, name, c, p, t) && t.Node?
    requires p in key && Compare(ord, key[p], name) < 0
    ensures p in m && Searching(m, root, ord, key, nodes, name, InLeft(c, t.id, t.color, t.right), m[p].left, t.left)
  {
    DescendLeft(m, root, c, p, t);
    SortedParts(ord, key, c, t);
    var r := InOrder(t.right);
    var s := [t.id] + r + After(c);
    forall i | 0 <= i < |s| ensures s[i] in key && Compare(ord, key[s[i]], name) < 0 {
      if 0 < i <= |r| {
        assert s[i] == r[i - 1];
        assert Compare(ord, key[r[i - 1]], key[[t.id][0]]) < 0;
        CompareTotal(ord, key[r[i - 1]], key[t.id], name);
      } else if i > |r| {
        assert s[i] == After(c)[i - 1 - |r|];
      }
    }
  }

  lemma {:induction false} SearchRight(m: Mem, root: Ptr, ord: Order, key: Keys, nodes: seq<Ptr>, name: Name, c: Ctx,
                                       p: Ptr, t: Tree)
    requires Searching(m, root, ord, key, nodes, name, c, p, t) && t.Node?
    requires p in key && Compare(ord, key[p], name) > 0
    ensures p in m && Searching(m, root, ord, key, nodes, name, InRight(c, t.id, t.color, t.left), m[p].right, t.right)
  {
    DescendRight(m, root, c, p, t);
    SortedParts(ord, key, c, t);
    var l := InOrder(t.left);
    var b := Before(c);
    var s := b + l + [t.id];
    forall i | 0 <= i < |s| ensures s[i] in key && Compare(ord, key[s[i]], name) > 0 {
      if i < |b| {
        assert s[i] == b[i];
      } else if i < |b| + |l| {
        assert s[i] == l[i - |b|];
        assert Compare(ord, key[[t.id][0]], key[l[i - |b|]]) < 0;
        CompareTotal(ord, name, key[t.id], key[l[i - |b|]]);
        CompareTotal(ord, key[t.id], name, name);
        CompareTotal(ord, key[l[i - |b|]], name, name);
      }
    }
  }

  /** At an empty subtree the name is not in the tree, and a node with it can be put
      there without breaking the order. */
  lemma {:induction false} SearchMiss(ord: Order, key: Keys, nodes: seq<Ptr>, name: Name, c: Ctx, node: Ptr)
    requires Walk(c, Leaf) == nodes && Sorted(ord, key, nodes)
    requires AllAbove(ord, key, Before(c), name) && AllBelow(ord, key, After(c), name)
    requires node !in nodes
    ensures forall i {:trigger nodes[i]} :: 0 <= i < |nodes| ==> key[nodes[i]] != name
    ensures Sorted(ord, key[node := name], Before(c) + [node] + After(c))
  {
    var a, b := Before(c), After(c);
    assert nodes == a + b;
    forall i | 0 <= i < |nodes| ensures key[nodes[i]] != name {
      assert nodes[i] == if i < |a| then a[i] else b[i - |a|];
      CompareTotal(ord, key[nodes[i]], name, name);
    }
    forall i | 0 <= i < |a| ensures a[i] != node { assert nodes[i] == a[i]; }
    forall i | 0 <= i < |b| ensures b[i] != node { assert nodes[|a| + i] == b[i]; }
    InsertSorted(ord, key, name, a, node, b);
  }

  lemma {:induction false} InsertSorted(ord: Order, key: Keys, name: Name, a: seq<Ptr>, node: Ptr, b: seq<Ptr>)
    requires Sorted(ord, key, a + b) && AllAbove(ord, key, a, name) && AllBelow(ord, key, b, name)
    requires node !in a && node !in b
    ensures Sorted(ord, key[node := name], a + [node] + b)
  {
    var k, s, n := key[node := name], a + [node] + b, |a|;
    forall i | 0 <= i < |s| ensures s[i] in k {
      assert s[i] == if i < n then a[i] else if i == n then node else b[i - n - 1];
    }
    forall i, j | 0 <= i < j < |s| ensures Compare(ord, k[s[j]], k[s[i]]) < 0 {
      assert i != n ==> s[i] == (a + b)[if i < n then i else i - 1];
      assert j != n ==> s[j] == (a + b)[if j < n then j else j - 1];
      if j == n {
        CompareTotal(ord, k[a[i]], name, name);
      }
    }
  }

  /** Taking a node out keeps the rest sorted. */
  lemma {:induction false} SortedWithout(ord: Order, key: Keys, a: seq<Ptr>, x: Ptr, b: seq<Ptr>)
    requires Sorted(ord, key, a + [x] + b)
    ensures Sorted(ord, key, a + b)
  {
    SortedAppend(ord, key, a + [x], b);
    SortedAppend(ord, key, a, [x]);
    forall i, j | 0 <= i < |a| && 0 <= j < |b| ensures Compare(ord, key[b[j]], key[a[i]]) < 0 {
      assert (a + [x])[i] == a[i];
    }
    SortedAppend(ord, key, a, b);
  }

  /** Sorted nodes have different names. */
  lemma {:induction false} SortedDistinct(ord: Order, key: Keys, s: seq<Ptr>, i: nat, j: nat)
    requires Sorted(ord, key, s) && i < |s| && j < |s| && key[s[i]] == key[s[j]]
    ensures i == j
  {
    CompareTotal(ord, key[s[i]], key[s[j]], key[s[i]]);
  }
}
