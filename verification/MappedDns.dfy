/** The mapped-DNS cache of hev-mapped-dns.c: a red-black tree by name, a recency list
    and an index of records kept in step, and the fake addresses minted from them. */
module MappedDns {
  import opened Basics
  import opened RbShape
  import opened RbStore
  import opened RbTree
  import opened LinkedList
  import opened KeyOrder
  import opened SearchTree
  import opened Search
  import opened Address
  import Lru

  /** The entries of the given nodes. */
  ghost function Entries(order: seq<Ptr>, name: Keys, idx: map<Ptr, nat>): (s: Lru.Cache)
    requires forall i :: 0 <= i < |order| ==> order[i] in name && order[i] in idx
    ensures |s| == |order|
  {
    seq(|order|, i requires 0 <= i < |order| => Lru.Entry(name[order[i]], idx[order[i]]))
  }

  /** List, tree and records hold the same nodes, and `records` inverts `idx`. */
  ghost predicate InStep(use: nat, order: seq<Ptr>, nodes: seq<Ptr>, name: Keys, idx: map<Ptr, nat>,
                         records: seq<Ptr>) {
    && |order| == use <= |records|
    && (forall p :: p in order <==> p in nodes)
    && (forall i {:trigger order[i]} :: 0 <= i < |order| ==>
          order[i] in name && order[i] in idx && idx[order[i]] < use && records[idx[order[i]]] == order[i])
    && (forall i {:trigger records[i]} :: 0 <= i < use ==>
          records[i] in order && records[i] in idx && idx[records[i]] == i)
    && (forall i {:trigger records[i]} :: use <= i < |records| ==> records[i] == NULL)
  }

  class MappedDns {
    var use: nat
    const max: nat
    const net: Word
    const mask: Word
    const list: List
    const tree: RBTree
    var name: Keys
    var idx: map<Ptr, nat>
    const records: array<Ptr>

    ghost predicate Valid()
      reads this, list, tree, records
    {
      && max >= 1 && Accepts(mask, max)
      && list.Valid() && SortedTree(tree, ByStrcmp, name)
      && records.Length == max
      && InStep(use, list.order, tree.Nodes(), name, idx, records[..])
    }

    /** The cache as a value, least recently touched first. */
    ghost function Abs(): Lru.Cache
      reads this, list, tree, records
      requires Valid()
    {
      Entries(list.order, name, idx)
    }

    constructor (net: Word, mask: Word, max: nat)
      requires max >= 1 && Accepts(mask, max)
      ensures Valid() && fresh(list) && fresh(tree) && fresh(records)
      ensures Abs() == [] && this.net == net && this.mask == mask && this.max == max
    {
      this.net, this.mask, this.max := net, mask, max;
      use, name, idx := 0, map[], map[];
      list := new List();
      tree := new RBTree();
      records := new Ptr[max](_ => NULL);
    }

    /** `hev_mapped_dns_new`: no cache with more records than there are host numbers. */
    static method New(net: Word, mask: Word, max: nat) returns (self: MappedDns?)
      requires max >= 1
      ensures self == null <==> !Accepts(mask, max)
      ensures self != null ==> fresh(self) && self.Valid() && self.Abs() == []
      ensures self != null ==> self.net == net && self.mask == mask && self.max == max
    {
      if max > Signed(Not(mask)) {
        return null;
      }
      self := new MappedDns(net, mask, max);
    }

    /** Moves a node to the end of the recency list. */
    method Touch(node: Ptr)
      requires Valid() && node in list.order
      modifies list
      ensures Valid()
      ensures var s := old(Abs());
        var k := Lru.Position(s, name[node]);
        && k < |s| && s[k] == Lru.Entry(name[node], idx[node])
        && Abs() == Lru.Touch(s, k)
      ensures forall p :: p in list.order <==> p in old(list.order)
    {
      hide SortedTree, InStep, Lru.Position, Lru.Touch;
      ghost var o0 := list.order;
      TouchMoves(node);
      list.Del(node);
      list.AddTail(node);
      InStepMoved(use, o0, list.order, tree.Nodes(), name, idx, records[..]);
    }

    /** What moving a node to the end does to the cache as a value. */
    lemma {:induction false} TouchMoves(node: Ptr)
      requires Valid() && node in list.order
      ensures var o, s := Without(list.order, node) + [node], Abs();
        var k := Lru.Position(s, name[node]);
        && node !in Without(list.order, node)
        && |o| == |list.order| && (forall p :: p in o <==> p in list.order)
        && (forall i :: 0 <= i < |o| ==> o[i] in name && o[i] in idx)
        && k < |s| && s[k] == Lru.Entry(name[node], idx[node]) && Entries(o, name, idx) == Lru.Touch(s, k)
    {
      var o := list.order;
      var k: nat :| k < |o| && o[k] == node;
      hide SortedTree;
      MoveLast(o, k);
      EntriesPosition(tree, name, idx, o, k);
      EntriesTouch(name, idx, o, k);
    }

    /** Between linking `node` and giving it an index: one node too many in tree and list. */
    ghost predicate Linking(nm: Name, node: Ptr, order: seq<Ptr>, nodes: seq<Ptr>, name0: Keys)
      reads this, list, tree, records
    {
      && list.Valid() && SortedTree(tree, ByStrcmp, name) && name == name0[node := nm]
      && max >= 1 && Accepts(mask, max) && records.Length == max && node !in order && NoDups(order)
      && list.order == order + [node] && (forall p :: p in tree.Nodes() <==> p == node || p in nodes)
      && InStep(use, order, nodes, name0, idx, records[..])
    }

    method LinkNode(nm: Name, node: Ptr, parent: Ptr, link: Slot, ghost c: Ctx)
      requires Valid() && EmptySlot(tree, ByStrcmp, name, nm, parent, link, c)
      requires node != NULL && node !in list.order
      modifies this`name, list, tree
      ensures Linking(nm, node, old(list.order), old(tree.Nodes()), old(name))
      ensures Lru.Position(old(Abs()), nm) == |old(Abs())|
    {
      ghost var o0, n0, name0 := list.order, tree.Nodes(), name;
      InsertAt(tree, ByStrcmp, name, nm, node, parent, link, c);
      forall i | 0 <= i < |o0| ensures name0[o0[i]] != nm {
        assert o0[i] in n0;
      }
      EntriesAbsent(o0, name0, idx, nm);
      name := name[node := nm];
      list.AddTail(node);
    }

    method TakeFree(nm: Name, node: Ptr, ghost order: seq<Ptr>, ghost nodes: seq<Ptr>, ghost name0: Keys)
      returns (r: nat)
      requires Linking(nm, node, order, nodes, name0) && use < max
      modifies this`use, this`idx, records
      ensures Valid()
      ensures r == |order| && Abs() == Entries(order, name0, old(idx)) + [Lru.Entry(nm, r)]
      ensures forall p :: p in list.order ==> p == node || p in order
    {
      r := use;
      InStepAdded(use, order, nodes, name0, idx, records[..], tree.Nodes(), node, nm);
      ghost var rec := records[..][r := node];
      use := use + 1;
      records[r] := node;
      idx := idx[node := r];
      assert records[..] == rec;
    }

    method Evict(nm: Name, node: Ptr, ghost order: seq<Ptr>, ghost nodes: seq<Ptr>, ghost name0: Keys) returns (r: nat)
      requires Linking(nm, node, order, nodes, name0) && use == max
      modifies this`name, this`idx, list, tree, records
      ensures Valid()
      ensures order != [] && order[0] in old(idx) && r == old(idx)[order[0]]
      ensures Abs() == Entries(order, name0, old(idx))[1..] + [Lru.Entry(nm, r)]
      ensures forall p :: p in list.order ==> p == node || p in order
    {
      ghost var name1, idx0, rec0 := name, idx, records[..];
      var victim := list.head;
      assert victim == order[0] && victim != node && victim in order;
      r := idx[victim];
      EraseNode(tree, ByStrcmp, name, victim);
      InStepReplaced(use, order, nodes, name0, idx, rec0, tree.Nodes(), node, nm);
      list.Del(victim);
      assert list.order == order[1..] + [node];
      name, idx := name - {victim}, idx - {victim};
      SortedSameNames(ByStrcmp, name1, name, tree.Nodes());
      records[r] := node;
      idx := idx[node := r];
      assert records[..] == rec0[r := node];
    }

    lemma {:induction false} UseIsSize()
      requires Valid()
      ensures |Abs()| == use <= max
    {
    }

    /** The miss branch of `hev_mapped_dns_find`: link the new node, and either take the
        next free index or evict the least recently touched node and take over its index. */
    method Insert(nm: Name, node: Ptr, parent: Ptr, link: Slot, ghost c: Ctx) returns (r: nat)
      requires Valid() && EmptySlot(tree, ByStrcmp, name, nm, parent, link, c)
      requires node != NULL && node !in list.order
      modifies this`use, this`name, this`idx, list, tree, records
      ensures Valid()
      ensures Lru.Position(old(Abs()), nm) == |old(Abs())|
      ensures Abs() == Lru.Find(old(Abs()), max, nm, true) && r == Lru.FindIdx(old(Abs()), max, nm, true)
      ensures forall p :: p in list.order ==> p == node || p in old(list.order)
    {
      hide InStep, SortedTree, EmptySlot, Lru.Position;
      UseIsSize();
      ghost var o0, n0, name0 := list.order, tree.Nodes(), name;
      LinkNode(nm, node, parent, link, c);
      if use < max {
        r := TakeFree(nm, node, o0, n0, name0);
      } else {
        r := Evict(nm, node, o0, n0, name0);
      }
    }

    /** `hev_mapped_dns_find`: `spare` is the memory for a new node, or null if there is none. */
    method Find(nm: Name, spare: Ptr) returns (r: int)
      requires Valid() && spare !in list.order
      modifies this`use, this`name, this`idx, list, tree, records
      ensures Valid()
      ensures Abs() == Lru.Find(old(Abs()), max, nm, spare != NULL)
      ensures r == Lru.FindIdx(old(Abs()), max, nm, spare != NULL)
      ensures forall p :: p in list.order ==> (p == spare && spare != NULL) || p in old(list.order)
    {
      var hit, parent, link;
      ghost var c, steps;
      hit, parent, link, c, steps := Descend(tree, ByStrcmp, name, nm);
      if hit != NULL {
        assert hit in list.order;
        Touch(hit);
        r := idx[hit];
      } else if spare == NULL {
        MissAbsent(nm, parent, link, c);
        r := -1;
      } else {
        r := Insert(nm, spare, parent, link, c);
      }
    }

    lemma {:induction false} MissAbsent(nm: Name, parent: Ptr, link: Slot, c: Ctx)
      requires Valid() && EmptySlot(tree, ByStrcmp, name, nm, parent, link, c)
      ensures Lru.Position(Abs(), nm) == |Abs()|
    {
      SearchMiss(ByStrcmp, name, tree.Nodes(), nm, c, NULL);
      forall i | 0 <= i < |list.order| ensures name[list.order[i]] != nm {
        assert list.order[i] in tree.Nodes();
      }
      EntriesAbsent(list.order, name, idx, nm);
    }

    /** `hev_mapped_dns_lookup`. */
    method Lookup(ip: Word) returns (r: Option<Name>)
      requires Valid()
      modifies list
      ensures Valid()
      ensures Abs() == Lru.Lookup(old(Abs()), HostIndex(mask, ip))
      ensures r == Lru.LookupName(old(Abs()), HostIndex(mask, ip))
    {
      var i := HostIndex(mask, ip);
      LookupRecord(i);
      if i >= max {
        return None;
      }
      var node := records[i];
      if node == NULL {
        return None;
      }
      Touch(node);
      r := Some(name[node]);
    }

    /** What the memory holds is a cache in the sense of the theorems about runs. */
    lemma {:induction false} CacheWellFormed()
      requires Valid()
      ensures Lru.WellFormed(Abs(), max)
    {
      var s, o := Abs(), list.order;
      forall i, j | 0 <= i < j < |s| ensures s[i].name != s[j].name && s[i].idx != s[j].idx {
        EntriesPosition(tree, name, idx, o, i);
        EntriesPosition(tree, name, idx, o, j);
        assert o[i] != o[j] && records[..][idx[o[i]]] == o[i] && records[..][idx[o[j]]] == o[j];
      }
    }

    /** The i-th record is the entry with index i. */
    lemma {:induction false} LookupRecord(i: nat)
      requires Valid()
      ensures i < max && records[i] != NULL ==>
        && records[i] in list.order
        && Lru.PositionIdx(Abs(), i) == Lru.Position(Abs(), name[records[i]]) < |Abs()|
        && Lru.LookupName(Abs(), i) == Some(name[records[i]])
      ensures i >= max || records[i] == NULL ==> Lru.PositionIdx(Abs(), i) == |Abs()|
    {
      var s, rec := Abs(), records[..];
      if i < max && records[i] != NULL {
        assert rec[i] == records[i];
        assert i < use;
        assert records[i] in list.order;
        var k: nat :| k < |list.order| && list.order[k] == records[i];
        EntriesPosition(tree, name, idx, list.order, k);
        assert s[k].idx == i;
        var j := Lru.PositionIdx(s, i);
        assert idx[list.order[j]] == i && rec[i] == list.order[j];
      }
    }
  }

  /** A name no node has is nowhere in the entries. */
  lemma {:induction false} EntriesAbsent(order: seq<Ptr>, name: Keys, idx: map<Ptr, nat>, nm: Name)
    requires forall i {:trigger order[i]} :: 0 <= i < |order| ==>
      order[i] in name && order[i] in idx && name[order[i]] != nm
    ensures Lru.Position(Entries(order, name, idx), nm) == |order|
  {
  }

  /** A new node took the next free index. */
  lemma {:induction false} InStepAdded(use: nat, order: seq<Ptr>, nodes: seq<Ptr>, name: Keys, idx: map<Ptr, nat>,
                                       records: seq<Ptr>, nodes': seq<Ptr>, node: Ptr, nm: Name)
    requires InStep(use, order, nodes, name, idx, records) && use < |records|
    requires node !in order && forall p :: p in nodes' <==> p == node || p in nodes
    ensures InStep(use + 1, order + [node], nodes', name[node := nm], idx[node := use], records[use := node])
    ensures Entries(order + [node], name[node := nm], idx[node := use]) ==
      Entries(order, name, idx) + [Lru.Entry(nm, use)]
  {
    var o, r := order + [node], records[use := node];
    forall i | 0 <= i < |o|
      ensures o[i] in name[node := nm] && o[i] in idx[node := use] && idx[node := use][o[i]] < use + 1 &&
        r[idx[node := use][o[i]]] == o[i]
    {
      if i < |order| { assert o[i] == order[i] && order[i] != node; }
    }
    forall i | 0 <= i < use + 1 ensures r[i] in o && r[i] in idx[node := use] && idx[node := use][r[i]] == i {
      if i < use { assert records[i] in order && records[i] != node; } else { assert o[|order|] == node; }
    }
  }

  /** A new node took the index of the oldest one, which is gone. */
  lemma {:induction false} InStepReplaced(use: nat, order: seq<Ptr>, nodes: seq<Ptr>, name: Keys, idx: map<Ptr, nat>,
                                          records: seq<Ptr>, nodes': seq<Ptr>, node: Ptr, nm: Name)
    requires InStep(use, order, nodes, name, idx, records) && use == |records| >= 1 && NoDups(order)
    requires node !in order && forall p :: p in nodes' <==> (p == node || p in nodes) && p != order[0]
    ensures var v, k := order[0], idx[order[0]];
      var name', idx' := name[node := nm] - {v}, (idx - {v})[node := k];
      && InStep(use, order[1..] + [node], nodes', name', idx', records[k := node])
      && Entries(order[1..] + [node], name', idx') == Entries(order, name, idx)[1..] + [Lru.Entry(nm, k)]
  {
    var v, k := order[0], idx[order[0]];
    var name', idx' := name[node := nm] - {v}, (idx - {v})[node := k];
    var o, r := order[1..] + [node], records[k := node];
    forall i | 0 <= i < |o|
      ensures o[i] in name' && o[i] in idx' && idx'[o[i]] < use && r[idx'[o[i]]] == o[i]
      ensures i < |order| - 1 ==> o[i] == order[i + 1] && name'[o[i]] == name[o[i]] && idx'[o[i]] == idx[o[i]]
    {
      if i < |order| - 1 { assert o[i] == order[i + 1] && order[i + 1] != node && order[i + 1] != v; }
    }
    forall i | 0 <= i < use ensures r[i] in o && r[i] in idx' && idx'[r[i]] == i {
      if i != k {
        assert records[i] in order && records[i] != v && records[i] != node;
        var j :| 0 <= j < |order| && order[j] == records[i];
        assert o[j - 1] == records[i];
      } else {
        assert o[|order| - 1] == node;
      }
    }
    forall p ensures p in o <==> p in nodes' {
      if p in order && p != v {
        var j :| 0 <= j < |order| && order[j] == p;
        assert o[j - 1] == p;
      }
      assert o[|order| - 1] == node;
    }
  }

  /** Deleting and appending a node moves it last. */
  lemma {:induction false} MoveLast(order: seq<Ptr>, k: nat)
    requires k < |order| && NoDups(order)
    ensures var o := Without(order, order[k]);
      && o == order[..k] + order[k + 1..] && order[k] !in o
      && |o| == |order| - 1 && (forall p :: p in o + [order[k]] <==> p in order)
  {
    WithoutAt(order, k);
    var o := order[..k] + order[k + 1..];
    assert forall i :: 0 <= i < |o| ==> o[i] == order[if i < k then i else i + 1];
    forall p | p in order ensures p in o + [order[k]] {
      var i :| 0 <= i < |order| && order[i] == p;
      assert i != k ==> o[if i < k then i else i - 1] == p;
    }
  }

  lemma {:induction false} InStepMoved(use: nat, order: seq<Ptr>, order': seq<Ptr>, nodes: seq<Ptr>, name: Keys,
                                       idx: map<Ptr, nat>, records: seq<Ptr>)
    requires InStep(use, order, nodes, name, idx, records)
    requires |order'| == |order| && forall p :: p in order' <==> p in order
    ensures InStep(use, order', nodes, name, idx, records)
  {
    forall i | 0 <= i < |order'|
      ensures order'[i] in name && order'[i] in idx && idx[order'[i]] < use && records[idx[order'[i]]] == order'[i]
    {
      assert order'[i] in order;
    }
  }

  lemma {:induction false} EntriesPosition(tree: RBTree, name: Keys, idx: map<Ptr, nat>, order: seq<Ptr>, k: nat)
    requires SortedTree(tree, ByStrcmp, name) && k < |order| && NoDups(order)
    requires forall i {:trigger order[i]} :: 0 <= i < |order| ==>
      order[i] in tree.Nodes() && order[i] in name && order[i] in idx
    ensures Lru.Position(Entries(order, name, idx), name[order[k]]) == k
  {
    var s := Entries(order, name, idx);
    var j := Lru.Position(s, name[order[k]]);
    assert s[k].name == name[order[k]];
    assert s[j].name == name[order[j]];
    var a: nat :| a < |tree.Nodes()| && tree.Nodes()[a] == order[k];
    var b: nat :| b < |tree.Nodes()| && tree.Nodes()[b] == order[j];
    SortedDistinct(ByStrcmp, name, tree.Nodes(), a, b);
  }

  lemma {:induction false} EntriesTouch(name: Keys, idx: map<Ptr, nat>, order: seq<Ptr>, k: nat)
    requires k < |order| && forall i :: 0 <= i < |order| ==> order[i] in name && order[i] in idx
    ensures var o := order[..k] + order[k + 1..] + [order[k]];
      && (forall i :: 0 <= i < |o| ==> o[i] in name && o[i] in idx)
      && Entries(o, name, idx) == Lru.Touch(Entries(order, name, idx), k)
  {
    var o := order[..k] + order[k + 1..] + [order[k]];
    assert forall i :: 0 <= i < |o| ==> o[i] == if i < k then order[i] else if i < |order| - 1 then order[i + 1]
      else order[k];
  }
}
