/** The doubly linked list of hev-list.c. */
module LinkedList {
  import opened Basics
  import opened RbShape
  import opened RbStore

  /** One `HevListNode`. */
  datatype Link = Link(next: Ptr, prev: Ptr)

  lemma {:induction false} WithoutAt(s: seq<Ptr>, i: nat)
    requires i < |s| && NoDups(s)
    ensures Without(s, s[i]) == s[..i] + s[i + 1..]
  {
    if i > 0 {
      assert s[0] != s[i];
      assert s[1..][i - 1] == s[i];
      WithoutAt(s[1..], i - 1);
      CutBehindFirst(s, i);
    }
  }

  lemma {:induction false} CutBehindFirst(s: seq<Ptr>, i: nat)
    requires 0 < i < |s|
    ensures [s[0]] + (s[1..][..i - 1] + s[1..][i..]) == s[..i] + s[i + 1..]
  {
  }

  /** The i-th node, or null off either end. */
  ghost function At(s: seq<Ptr>, i: int): Ptr {
    if 0 <= i < |s| then s[i] else NULL
  }

  /** The i-th node points at its neighbours. */
  ghost predicate LinkedAt(links: map<Ptr, Link>, order: seq<Ptr>, i: int)
    requires 0 <= i < |order|
  {
    order[i] in links && links[order[i]] == Link(At(order, i + 1), At(order, i - 1))
  }

  ghost predicate Linked(links: map<Ptr, Link>, order: seq<Ptr>) {
    forall i :: 0 <= i < |order| ==> LinkedAt(links, order, i)
  }

  /** The links after node `k` was bridged over. */
  lemma {:induction false} BridgeLinked(links: map<Ptr, Link>, links': map<Ptr, Link>, order: seq<Ptr>, k: nat)
    requires Linked(links, order) && NoDups(order) && NULL !in order && k < |order|
    requires forall q :: q in links && q != At(order, k - 1) && q != At(order, k + 1) ==>
      q in links' && links'[q] == links[q]
    requires k > 0 ==>
      var p := order[k - 1]; p in links && p in links' && links'[p] == links[p].(next := At(order, k + 1))
    requires k + 1 < |order| ==>
      var p := order[k + 1]; p in links && p in links' && links'[p] == links[p].(prev := At(order, k - 1))
    ensures Linked(links', order[..k] + order[k + 1..])
  {
    var s := order[..k] + order[k + 1..];
    forall i | 0 <= i < |s| ensures LinkedAt(links', s, i) {
      var j := if i < k then i else i + 1;
      assert LinkedAt(links, order, j);
      assert s[i] == order[j];
      assert At(s, i + 1) == if j + 1 == k then At(order, k + 1) else At(order, j + 1);
      assert At(s, i - 1) == if j - 1 == k then At(order, k - 1) else At(order, j - 1);
      assert order[j] == At(order, k - 1) <==> j == k - 1;
      assert order[j] == At(order, k + 1) <==> j == k + 1;
    }
  }

  lemma {:induction false} CutEnds(order: seq<Ptr>, k: nat)
    requires NoDups(order) && NULL !in order && k < |order|
    ensures var s := order[..k] + order[k + 1..];
      && NoDups(s) && NULL !in s
      && At(s, 0) == (if k == 0 then At(order, 1) else order[0])
      && At(s, |s| - 1) == (if k == |order| - 1 then At(order, k - 1) else order[|order| - 1])
  {
    var s := order[..k] + order[k + 1..];
    assert forall i :: 0 <= i < |s| ==> s[i] == order[if i < k then i else i + 1];
  }

  /** The links after `node` was put behind the last one. */
  lemma {:induction false} AppendLinked(links: map<Ptr, Link>, links': map<Ptr, Link>, order: seq<Ptr>, node: Ptr)
    requires Linked(links, order) && NoDups(order) && node !in order && node != NULL
    requires node in links' && links'[node] == Link(NULL, At(order, |order| - 1))
    requires forall i {:trigger order[i]} :: 0 <= i < |order| - 1 && order[i] in links ==>
      order[i] in links' && links'[order[i]] == links[order[i]]
    requires order != [] ==>
      var p := order[|order| - 1]; p in links && p in links' && links'[p] == links[p].(next := node)
    ensures Linked(links', order + [node])
  {
    var s := order + [node];
    forall i | 0 <= i < |s| ensures LinkedAt(links', s, i) {
      if i < |order| {
        assert LinkedAt(links, order, i);
        assert s[i] == order[i];
      }
      assert At(s, i - 1) == At(order, i - 1);
    }
  }

  class List {
    var head: Ptr
    var tail: Ptr
    var links: map<Ptr, Link>
    /** The nodes from head to tail. */
    ghost var order: seq<Ptr>

    ghost predicate Valid()
      reads this
    {
      && NoDups(order) && NULL !in order
      && head == At(order, 0) && tail == At(order, |order| - 1)
      && Linked(links, order)
    }

    constructor ()
      ensures Valid() && order == []
    {
      head, tail := NULL, NULL;
      links := map[];
      order := [];
    }

    method AddTail(node: Ptr)
      requires Valid() && node != NULL && node !in order
      modifies this
      ensures Valid() && order == old(order) + [node]
    {
      ghost var links0 := links;
      assert order != [] ==> LinkedAt(links, order, |order| - 1);
      links := links[node := Link(NULL, tail)];
      if tail != NULL {
        links := links[tail := links[tail].(next := node)];
      } else {
        head := node;
      }
      tail := node;
      AppendLinked(links0, links, order, node);
      order := order + [node];
    }

    /** The pointer rewrites of `hev_list_del`. */
    method Bypass(node: Ptr)
      requires node in links
      requires var l := links[node]; (l.prev != NULL ==> l.prev in links) && (l.next != NULL ==> l.next in links)
      requires var l := links[node]; l.prev == NULL || l.prev != l.next
      modifies this`links, this`head, this`tail
      ensures var l := old(links)[node];
        && head == (if l.prev == NULL then l.next else old(head))
        && tail == (if l.next == NULL then l.prev else old(tail))
        && (l.prev != NULL ==> l.prev in links && links[l.prev] == old(links)[l.prev].(next := l.next))
        && (l.next != NULL ==> l.next in links && links[l.next] == old(links)[l.next].(prev := l.prev))
        && (forall q :: q in old(links) && (l.prev == NULL || q != l.prev) && (l.next == NULL || q != l.next) ==>
           q in links && links[q] == old(links)[q])
    {
      var l := links[node];
      if l.prev != NULL {
        links := links[l.prev := links[l.prev].(next := l.next)];
      } else {
        head := l.next;
      }
      if l.next != NULL {
        links := links[l.next := links[l.next].(prev := l.prev)];
      } else {
        tail := l.prev;
      }
    }

    method Del(node: Ptr)
      requires Valid() && node in order
      modifies this
      ensures Valid() && order == Without(old(order), node)
    {
      ghost var k: nat :| k < |order| && order[k] == node;
      ghost var links0 := links;
      Neighbours(links, order, k);
      Bypass(node);
      Bridged(links0, links, order, k);
      order := Without(order, node);
    }
  }

  /** The list without its node `k`. */
  lemma {:induction false} Bridged(links: map<Ptr, Link>, links': map<Ptr, Link>, order: seq<Ptr>, k: nat)
    requires Linked(links, order) && NoDups(order) && NULL !in order && k < |order|
    requires forall q :: q in links && q != At(order, k - 1) && q != At(order, k + 1) ==>
      q in links' && links'[q] == links[q]
    requires k > 0 ==>
      var p := order[k - 1]; p in links && p in links' && links'[p] == links[p].(next := At(order, k + 1))
    requires k + 1 < |order| ==>
      var p := order[k + 1]; p in links && p in links' && links'[p] == links[p].(prev := At(order, k - 1))
    ensures var s := Without(order, order[k]);
      && Linked(links', s) && NoDups(s) && NULL !in s
      && At(s, 0) == (if k == 0 then At(order, 1) else order[0])
      && At(s, |s| - 1) == (if k == |order| - 1 then At(order, k - 1) else order[|order| - 1])
  {
    BridgeLinked(links, links', order, k);
    CutEnds(order, k);
    WithoutAt(order, k);
  }

  lemma {:induction false} Neighbours(links: map<Ptr, Link>, order: seq<Ptr>, k: nat)
    requires Linked(links, order) && NoDups(order) && NULL !in order && k < |order|
    ensures order[k] in links && links[order[k]] == Link(At(order, k + 1), At(order, k - 1))
    ensures k > 0 ==> At(order, k - 1) in links && At(order, k - 1) == order[k - 1] != NULL
    ensures k + 1 < |order| ==> At(order, k + 1) in links && At(order, k + 1) == order[k + 1] != NULL
    ensures At(order, k - 1) == NULL || At(order, k - 1) != At(order, k + 1)
  {
    assert LinkedAt(links, order, k);
    assert k > 0 ==> LinkedAt(links, order, k - 1);
    assert k + 1 < |order| ==> LinkedAt(links, order, k + 1);
  }
}
