/** The user database of hev-socks5-authenticator.c: a red-black tree ordered by the
    length of a name and then by its bytes. */
module Authenticator {
  import opened Basics
  import opened RbShape
  import opened RbStore
  import opened RbTree
  import opened KeyOrder
  import opened SearchTree
  import opened Search

  class Authenticator {
    const tree: RBTree
    /** The name field of every user object. */
    var names: Keys

    ghost predicate Valid()
      reads this, tree
    {
      SortedTree(tree, ByLength, names)
    }

    /** The database as a finite map from names to users. */
    ghost function Users(): map<Name, Ptr>
      reads this, tree
      requires Valid()
    {
      UsersOf(names, tree.Nodes())
    }

    constructor ()
      ensures Valid() && Users() == map[] && fresh(tree)
    {
      tree := new RBTree();
      names := map[];
    }

    /** Adds a user under `name`; fails exactly when the name is taken. */
    method Add(user: Ptr, name: Name) returns (r: int, ghost steps: nat)
      requires Valid() && user != NULL && user !in tree.Nodes()
      modifies this, tree
      ensures Valid()
      ensures r == if name in old(Users()) then -1 else 0
      ensures Users() == if r == 0 then old(Users())[name := user] else old(Users())
      ensures Pow2((steps + 1) / 2) <= old(|tree.Nodes()|) + 1
    {
      var hit, parent, link;
      ghost var c;
      hit, parent, link, c, steps := Descend(tree, ByLength, names, name);
      if hit != NULL {
        UsersAt(names, tree.Nodes(), hit);
        return -1, steps;
      }
      ghost var n0, k0 := tree.Nodes(), names;
      InsertAt(tree, ByLength, names, name, user, parent, link, c);
      names := names[user := name];
      UsersAdded(k0, n0, tree.Nodes(), user, name);
      r := 0;
    }

    /** Removes the user with the given name, if there is one. */
    method Del(name: Name) returns (r: int, ghost steps: nat)
      requires Valid()
      modifies tree
      ensures Valid()
      ensures r == if name in old(Users()) then 0 else -1
      ensures Users() == old(Users()) - {name}
      ensures Pow2((steps + 1) / 2) <= old(|tree.Nodes()|) + 1
    {
      hide UsersOf, EmptySlot, Sorted;
      var hit, parent, link;
      ghost var c;
      hit, parent, link, c, steps := Descend(tree, ByLength, names, name);
      if hit == NULL {
        Absent(name, parent, link, c);
        assert Users() == Users() - {name};
        return -1, steps;
      }
      ghost var n0 := tree.Nodes();
      EraseNode(tree, ByLength, names, hit);
      UsersRemoved(names, n0, tree.Nodes(), hit);
      r := 0;
    }

    /** The user with the given name, or null. */
    method Get(name: Name) returns (r: Ptr, ghost steps: nat)
      requires Valid()
      ensures r == if name in Users() then Users()[name] else NULL
      ensures Pow2((steps + 1) / 2) <= |tree.Nodes()| + 1
    {
      var parent, link;
      ghost var c;
      r, parent, link, c, steps := Descend(tree, ByLength, names, name);
      if r == NULL {
        Absent(name, parent, link, c);
      } else {
        UsersAt(names, tree.Nodes(), r);
      }
    }

    /** Removes all users, the first in the tree each time. */
    method Clear()
      requires Valid()
      modifies tree
      ensures Valid() && Users() == map[]
    {
      var n := tree.First();
      while n != NULL
        invariant Valid() && n == if tree.Nodes() == [] then NULL else tree.Nodes()[0]
        decreases |tree.Nodes()|
      {
        EraseNode(tree, ByLength, names, n);
        n := tree.First();
      }
      NodesNotNull(tree);
      assert tree.Nodes() == [];
    }

    lemma {:induction false} Absent(name: Name, parent: Ptr, link: Slot, c: Ctx)
      requires Valid() && EmptySlot(tree, ByLength, names, name, parent, link, c)
      ensures name !in Users()
    {
      NodesNotNull(tree);
      SearchMiss(ByLength, names, tree.Nodes(), name, c, NULL);
    }
  }

  /** The users of the given nodes, by name. */
  ghost function UsersOf(names: Keys, nodes: seq<Ptr>): map<Name, Ptr>
    requires Sorted(ByLength, names, nodes)
  {
    NamesDiffer(names, nodes);
    map p | p in nodes :: names[p] := p
  }

  lemma {:induction false} UsersAt(names: Keys, nodes: seq<Ptr>, p: Ptr)
    requires Sorted(ByLength, names, nodes) && p in nodes
    ensures p in names && names[p] in UsersOf(names, nodes) && UsersOf(names, nodes)[names[p]] == p
  {
    NamesDiffer(names, nodes);
  }

  lemma {:induction false} UsersAdded(names: Keys, nodes: seq<Ptr>, nodes': seq<Ptr>, user: Ptr, name: Name)
    requires Sorted(ByLength, names, nodes) && Sorted(ByLength, names[user := name], nodes')
    requires user !in nodes && forall q :: q in nodes' <==> q == user || q in nodes
    requires forall q :: q in nodes && q in names ==> names[q] != name
    ensures name !in UsersOf(names, nodes)
    ensures UsersOf(names[user := name], nodes') == UsersOf(names, nodes)[name := user]
  {
    NamesDiffer(names, nodes);
    NamesDiffer(names[user := name], nodes');
  }

  lemma {:induction false} UsersRemoved(names: Keys, nodes: seq<Ptr>, nodes': seq<Ptr>, p: Ptr)
    requires Sorted(ByLength, names, nodes) && Sorted(ByLength, names, nodes')
    requires p in nodes && forall q :: q in nodes' <==> q in nodes && q != p
    ensures p in names && names[p] in UsersOf(names, nodes)
    ensures UsersOf(names, nodes') == UsersOf(names, nodes) - {names[p]}
  {
    NamesDiffer(names, nodes);
    NamesDiffer(names, nodes');
  }

  lemma {:induction false} NamesDiffer(names: Keys, nodes: seq<Ptr>)
    requires Sorted(ByLength, names, nodes)
    ensures forall p :: p in nodes ==> p in names
    ensures forall p, q :: p in nodes && q in nodes && names[p] == names[q] ==> p == q
  {
    forall p, q | p in nodes && q in nodes && names[p] == names[q] ensures p == q {
      var i: nat :| i < |nodes| && nodes[i] == p;
      var j: nat :| j < |nodes| && nodes[j] == q;
      SortedDistinct(ByLength, names, nodes, i, j);
    }
  }

  lemma {:induction false} NodesNotNull(tree: RBTree)
    requires tree.Valid()
    ensures NULL !in tree.Nodes()
  {
    DistinctIffNoDups(tree.tree);
  }
}
