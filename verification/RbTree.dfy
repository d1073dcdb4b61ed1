/** The red-black tree of hev-rbtree.c: nodes rewritten in place, with
    bottom-up insert and erase fix-up loops. */
module RbTree {
  import opened RbShape
  import opened RbStore
  import opened RbFixup
  import opened RbUnlink

  /** The address `HevRBTreeNode **link` that `hev_rbtree_node_link` writes to. */
  datatype Slot = RootSlot | LeftOf(node: Ptr) | RightOf(node: Ptr)

  /** The slot that holds a context's hole. */
  function SlotOf(c: Ctx): Slot {
    match c
    case Top => RootSlot
    case InLeft(_, id, _, _) => LeftOf(id)
    case InRight(_, id, _, _) => RightOf(id)
  }

  class RBTree {
    var root: Ptr
    var mem: Mem
    ghost var tree: Tree

    ghost predicate Valid()
      reads this
    {
      Layout(mem, root, Top, root, tree) && ValidRb(tree)
    }

    /** The nodes in in-order. */
    ghost function Nodes(): seq<Ptr>
      reads this
    {
      InOrder(tree)
    }

    constructor ()
      ensures Valid() && Nodes() == [] && mem == map[]
    {
      root := NULL;
      mem := map[];
      tree := Leaf;
    }

    method ChangeChild(old_: Ptr, new_: Ptr, parent: Ptr)
      requires parent != NULL ==> parent in mem
      modifies this`mem, this`root
      ensures parent == NULL ==> root == new_ && mem == old(mem)
      ensures parent != NULL ==> root == old(root)
      ensures parent != NULL ==> mem == (if old(mem)[parent].left == old_ then SetLeft(old(mem), parent, new_)
                                         else SetRight(old(mem), parent, new_))
    {
      if parent != NULL {
        if mem[parent].left == old_ {
          mem := SetLeft(mem, parent, new_);
        } else {
          mem := SetRight(mem, parent, new_);
        }
      } else {
        root := new_;
      }
    }

    /** `new_` takes over the parent and colour of `old_`, which becomes its child. */
    method RotateSetParents(old_: Ptr, new_: Ptr, color: Color)
      requires old_ in mem && new_ in mem && old_ != new_
      requires mem[old_].parent != NULL ==> mem[old_].parent in mem
      requires mem[old_].parent != NULL ==> mem[old_].parent != old_ && mem[old_].parent != new_
      modifies this`mem, this`root
      ensures mem.Keys == old(mem.Keys)
      ensures mem[new_] == old(mem)[new_].(parent := old(mem)[old_].parent, color := old(mem)[old_].color)
      ensures mem[old_] == old(mem)[old_].(parent := new_, color := color)
      ensures old(mem)[old_].parent == NULL ==> root == new_
      ensures var q := old(mem)[old_].parent;
        q != NULL ==> root == old(root) && mem[q] == (if old(mem)[q].left == old_ then old(mem)[q].(left := new_)
                                                      else old(mem)[q].(right := new_))
      ensures forall q :: q in old(mem) && q != old_ && q != new_ && q != old(mem)[old_].parent ==>
        mem[q] == old(mem)[q]
    {
      var parent := mem[old_].parent;
      mem := SetParentColor(mem, new_, parent, mem[old_].color);
      mem := SetParentColor(mem, old_, new_, color);
      ChangeChild(old_, new_, parent);
    }

    // ---------- insertion ----------

    /** Links the fresh red node at an empty slot. */
    method Link(node: Ptr, parent: Ptr, link: Slot, ghost c: Ctx)
      requires Layout(mem, root, c, NULL, Leaf)
      requires node != NULL && node !in CtxIds(c)
      requires parent == ParentOf(c) && link == SlotOf(c)
      modifies this`mem, this`root
      ensures Layout(mem, root, c, node, Node(Leaf, node, Red, Leaf))
      ensures mem.Keys == old(mem.Keys) + {node}
    {
      ghost var m0, r0 := mem, root;
      mem := mem[node := Cell(NULL, NULL, parent, Red)];
      match link {
        case RootSlot => root := node;
        case LeftOf(q) => mem := SetLeft(mem, q, node);
        case RightOf(q) => mem := SetRight(mem, q, node);
      }
      MoveHole(m0, mem, r0, root, c, NULL, node);
    }

    /** Case 1: the uncle is red; colours flip and the violation moves to the grandparent. */
    method InsertRecolor(tmp: Ptr, parent: Ptr, gparent: Ptr, ghost c: Ctx, ghost t: Tree)
      requires Layout(mem, root, c, parent, t) && t.Node?
      requires !c.Top? && c.id == gparent && c.sib.Node? && c.sib.id == tmp
      modifies this`mem
      ensures mem.Keys == old(mem.Keys)
      ensures Layout(mem, root, c.up, gparent, Recolored(c, t))
    {
      ghost var m0 := mem;
      mem := SetParentColor(mem, tmp, gparent, Black);
      mem := SetParentColor(mem, parent, gparent, Black);
      var up := mem[gparent].parent;
      mem := SetParentColor(mem, gparent, up, Red);
      Repaint(m0, mem, parent, gparent, gparent, t, Black);
      Repaint(m0, mem, tmp, gparent, gparent, c.sib, Black);
      FrameCtx(m0, mem, root, c.up, gparent);
    }

    /** Case 2 below a left parent: rotate left at the parent. The grandparent's
        slot is left for case 3 to rewrite. */
    method InsertCase2Left(node: Ptr, parent: Ptr) returns (tmp: Ptr)
      requires node in mem && parent in mem && node != parent
      requires var a := mem[node].left; a != NULL ==> a in mem && a != node && a != parent
      modifies this`mem
      ensures tmp == old(mem)[node].right
      ensures var a := old(mem)[node].left;
        && OnlyChanged(old(mem), mem, {node, parent, a})
        && mem[node] == old(mem)[node].(left := parent)
        && mem[parent] == old(mem)[parent].(right := a, parent := node, color := Red)
        && (a != NULL ==> mem[a] == old(mem)[a].(parent := parent, color := Black))
    {
      tmp := mem[node].left;
      mem := SetRight(mem, parent, tmp);
      mem := SetLeft(mem, node, parent);
      if tmp != NULL {
        mem := SetParentColor(mem, tmp, parent, Black);
      }
      mem := SetParentColor(mem, parent, node, Red);
      tmp := mem[node].right;
    }

    /** Case 3 below a left parent: rotate right at the grandparent. */
    method InsertCase3Left(tmp: Ptr, parent: Ptr, gparent: Ptr)
      requires parent in mem && gparent in mem && parent != gparent
      requires tmp != NULL ==> tmp in mem && tmp != parent && tmp != gparent
      requires var q := mem[gparent].parent;
        q != NULL ==> q in mem && q != gparent && q != parent && q != tmp
      modifies this`mem, this`root
      ensures var q := old(mem)[gparent].parent;
        && OnlyChanged(old(mem), mem, {tmp, parent, gparent, q})
        && mem[parent] == Cell(old(mem)[parent].left, gparent, q, old(mem)[gparent].color)
        && mem[gparent] == Cell(tmp, old(mem)[gparent].right, parent, Red)
        && (tmp != NULL ==> mem[tmp] == old(mem)[tmp].(parent := gparent, color := Black))
        && Redirected(old(mem), mem, old(root), root, q, gparent, parent)
    {
      mem := SetLeft(mem, gparent, tmp);
      mem := SetRight(mem, parent, gparent);
      if tmp != NULL {
        mem := SetParentColor(mem, tmp, gparent, Black);
      }
      RotateSetParents(gparent, parent, Red);
    }

    /** Case 3 alone below a left parent. */
    method InsertOuterLeft(parent: Ptr, gparent: Ptr, tmp: Ptr, ghost c: Ctx, ghost t: Tree)
      requires Layout(mem, root, c, gparent, t) && t.Node? && t.left.Node? && t.left.id == parent
      requires tmp == RootOf(t.left.right)
      modifies this`mem, this`root
      ensures mem.Keys == old(mem.Keys)
      ensures Layout(mem, root, c, parent, RotR(t, t.color, Red, Black))
    {
      ghost var m0, r0 := mem, root;
      Open(mem, gparent, ParentOf(c), t);
      DescendLeft(mem, root, c, gparent, t);
      Surroundings(mem, root, InLeft(c, t.id, t.color, t.right), parent, t.left);
      InsertCase3Left(tmp, parent, gparent);
      RotateRightLayout(m0, mem, r0, root, c, t, t.color, Red, Black);
    }

    /** Case 2 followed by case 3 below a left parent. */
    method InsertInnerLeft(node: Ptr, parent: Ptr, gparent: Ptr, ghost c: Ctx, ghost t: Tree)
      requires Layout(mem, root, c, gparent, t) && t.Node? && t.left.Node? && t.left.id == parent
      requires t.left.right.Node? && node == t.left.right.id
      modifies this`mem, this`root
      ensures mem.Keys == old(mem.Keys)
      ensures Layout(mem, root, c, node, InsertedLeft(t, node))
    {
      hide Layout, Ids;
      ghost var m0, r0 := mem, root;
      ghost var p, k := t.left, InLeft(c, t.id, t.color, t.right);
      ghost var n := p.right;
      FocusCell(mem, root, c, gparent, t);
      DescendLeft(mem, root, c, gparent, t);
      Surroundings(mem, root, k, parent, p);
      ChildCells(mem, root, k, parent, p, n);
      var tmp := InsertCase2Left(node, parent);
      Case2LeftLayout(m0, mem, root, c, t);
      ghost var v := SetParent(SetLeft(mem, gparent, node), node, gparent);
      ghost var t1 := t.(left := RotL(p, n.color, Red, Black));
      InsertCase3Left(tmp, node, gparent);
      RotateRightLayout(v, mem, r0, root, c, t1, t.color, Red, Black);
    }

    /** Case 2 below a right parent: rotate right at the parent. */
    method InsertCase2Right(node: Ptr, parent: Ptr) returns (tmp: Ptr)
      requires node in mem && parent in mem && node != parent
      requires var a := mem[node].right; a != NULL ==> a in mem && a != node && a != parent
      modifies this`mem
      ensures tmp == old(mem)[node].left
      ensures var a := old(mem)[node].right;
        && OnlyChanged(old(mem), mem, {node, parent, a})
        && mem[node] == old(mem)[node].(right := parent)
        && mem[parent] == old(mem)[parent].(left := a, parent := node, color := Red)
        && (a != NULL ==> mem[a] == old(mem)[a].(parent := parent, color := Black))
    {
      tmp := mem[node].right;
      mem := SetLeft(mem, parent, tmp);
      mem := SetRight(mem, node, parent);
      if tmp != NULL {
        mem := SetParentColor(mem, tmp, parent, Black);
      }
      mem := SetParentColor(mem, parent, node, Red);
      tmp := mem[node].left;
    }

    /** Case 3 below a right parent: rotate left at the grandparent. */
    method InsertCase3Right(tmp: Ptr, parent: Ptr, gparent: Ptr)
      requires parent in mem && gparent in mem && parent != gparent
      requires tmp != NULL ==> tmp in mem && tmp != parent && tmp != gparent
      requires var q := mem[gparent].parent;
        q != NULL ==> q in mem && q != gparent && q != parent && q != tmp
      modifies this`mem, this`root
      ensures var q := old(mem)[gparent].parent;
        && OnlyChanged(old(mem), mem, {tmp, parent, gparent, q})
        && mem[parent] == Cell(gparent, old(mem)[parent].right, q, old(mem)[gparent].color)
        && mem[gparent] == Cell(old(mem)[gparent].left, tmp, parent, Red)
        && (tmp != NULL ==> mem[tmp] == old(mem)[tmp].(parent := gparent, color := Black))
        && Redirected(old(mem), mem, old(root), root, q, gparent, parent)
    {
      mem := SetRight(mem, gparent, tmp);
      mem := SetLeft(mem, parent, gparent);
      if tmp != NULL {
        mem := SetParentColor(mem, tmp, gparent, Black);
      }
      RotateSetParents(gparent, parent, Red);
    }

    /** Case 3 alone below a right parent. */
    method InsertOuterRight(parent: Ptr, gparent: Ptr, tmp: Ptr, ghost c: Ctx, ghost t: Tree)
      requires Layout(mem, root, c, gparent, t) && t.Node? && t.right.Node? && t.right.id == parent
      requires tmp == RootOf(t.right.left)
      modifies this`mem, this`root
      ensures mem.Keys == old(mem.Keys)
      ensures Layout(mem, root, c, parent, RotL(t, t.color, Red, Black))
    {
      ghost var m0, r0 := mem, root;
      Open(mem, gparent, ParentOf(c), t);
      DescendRight(mem, root, c, gparent, t);
      Surroundings(mem, root, InRight(c, t.id, t.color, t.left), parent, t.right);
      InsertCase3Right(tmp, parent, gparent);
      RotateLeftLayout(m0, mem, r0, root, c, t, t.color, Red, Black);
    }

    /** Case 2 followed by case 3 below a right parent. */
    method InsertInnerRight(node: Ptr, parent: Ptr, gparent: Ptr, ghost c: Ctx, ghost t: Tree)
      requires Layout(mem, root, c, gparent, t) && t.Node? && t.right.Node? && t.right.id == parent
      requires t.right.left.Node? && node == t.right.left.id
      modifies this`mem, this`root
      ensures mem.Keys == old(mem.Keys)
      ensures Layout(mem, root, c, node, InsertedRight(t, node))
    {
      hide Layout, Ids;
      ghost var m0, r0 := mem, root;
      ghost var p, k := t.right, InRight(c, t.id, t.color, t.left);
      ghost var n := p.left;
      FocusCell(mem, root, c, gparent, t);
      DescendRight(mem, root, c, gparent, t);
      Surroundings(mem, root, k, parent, p);
      ChildCells(mem, root, k, parent, p, n);
      var tmp := InsertCase2Right(node, parent);
      Case2RightLayout(m0, mem, root, c, t);
      ghost var v := SetParent(SetRight(mem, gparent, node), node, gparent);
      ghost var t1 := t.(right := RotR(p, n.color, Red, Black));
      InsertCase3Right(tmp, node, gparent);
      RotateLeftLayout(v, mem, r0, root, c, t1, t.color, Red, Black);
    }

    /** One round of the fix-up when the red parent is a left child: either colours
        flip and the grandparent is next, or rotations finish the job. */
    method InsertLeftHalf(node: Ptr, parent: Ptr, gparent: Ptr, tmp0: Ptr, ghost c: Ctx, ghost t: Tree)
      returns (done: bool, ghost c': Ctx, ghost t': Tree)
      requires RedRed(c, t) && c.up.InLeft? && Layout(mem, root, c, node, t)
      requires parent == c.id && gparent == c.up.id && tmp0 == RootOf(c.up.sib)
      modifies this`mem, this`root
      ensures mem.Keys == old(mem.Keys)
      ensures c' == c.up.up && t'.Node? && Layout(mem, root, c', t'.id, t') && Walk(c', t') == Walk(c, t)
      ensures Rb(t') && RbCtx(c', BlackHeight(t'))
      ensures if done then t'.color == Black else t'.color == Red && t'.id == gparent
      ensures Depth(c') + 2 == Depth(c)
    {
      ghost var g, p := c.up, Attach(c, t);
      Grandparent(mem, root, c, node, t);
      RedRedAbove(c, t);
      var tmp := tmp0;
      if tmp != NULL && mem[tmp].color == Red {
        RecolorRb(c, t);
        InsertRecolor(tmp, parent, gparent, g, p);
        done, c', t' := false, g.up, Recolored(g, p);
      } else {
        InsertedLeftRb(c, t);
        tmp := mem[parent].right;
        if node == tmp {
          InsertInnerLeft(node, parent, gparent, g.up, Attach(g, p));
        } else {
          InsertOuterLeft(parent, gparent, tmp, g.up, Attach(g, p));
        }
        done, c', t' := true, g.up, InsertedLeft(Attach(g, p), node);
      }
    }

    /** One round of the fix-up when the red parent is a right child: either colours
        flip and the grandparent is next, or rotations finish the job. */
    method InsertRightHalf(node: Ptr, parent: Ptr, gparent: Ptr, ghost c: Ctx, ghost t: Tree)
      returns (done: bool, ghost c': Ctx, ghost t': Tree)
      requires RedRed(c, t) && c.up.InRight? && Layout(mem, root, c, node, t)
      requires parent == c.id && gparent == c.up.id
      modifies this`mem, this`root
      ensures mem.Keys == old(mem.Keys)
      ensures c' == c.up.up && t'.Node? && Layout(mem, root, c', t'.id, t') && Walk(c', t') == Walk(c, t)
      ensures Rb(t') && RbCtx(c', BlackHeight(t'))
      ensures if done then t'.color == Black else t'.color == Red && t'.id == gparent
      ensures Depth(c') + 2 == Depth(c)
    {
      ghost var g, p := c.up, Attach(c, t);
      Grandparent(mem, root, c, node, t);
      RedRedAbove(c, t);
      var tmp := mem[gparent].left;
      if tmp != NULL && mem[tmp].color == Red {
        RecolorRb(c, t);
        InsertRecolor(tmp, parent, gparent, g, p);
        done, c', t' := false, g.up, Recolored(g, p);
      } else {
        InsertedRightRb(c, t);
        tmp := mem[parent].left;
        if node == tmp {
          InsertInnerRight(node, parent, gparent, g.up, Attach(g, p));
        } else {
          InsertOuterRight(parent, gparent, tmp, g.up, Attach(g, p));
        }
        done, c', t' := true, g.up, InsertedRight(Attach(g, p), node);
      }
    }

    /** The fix-up has reached the root, which turns black. */
    method InsertRoot(node: Ptr, ghost t: Tree)
      requires Layout(mem, root, Top, node, t) && t.Node? && Rb(t)
      modifies this
      ensures Valid() && Nodes() == InOrder(t) && mem.Keys == old(mem.Keys)
    {
      ghost var m0 := mem;
      mem := SetParentColor(mem, node, NULL, Black);
      Repaint(m0, mem, node, NULL, NULL, t, Black);
      tree := t.(color := Black);
    }

    /** One round below a red parent. */
    method InsertRound(node: Ptr, parent: Ptr, ghost c: Ctx, ghost t: Tree)
      returns (done: bool, gparent: Ptr, ghost c': Ctx, ghost t': Tree)
      requires RedRed(c, t) && Layout(mem, root, c, node, t) && parent == c.id
      modifies this
      ensures mem.Keys == old(mem.Keys) && Walk(c', t') == Walk(c, t)
      ensures done ==> Valid() && Nodes() == Walk(c, t)
      ensures !done ==> Climbing(mem, root, c', gparent, t') && Depth(c') < Depth(c)
    {
      Grandparent(mem, root, c, node, t);
      gparent := mem[parent].parent;
      var tmp := mem[gparent].right;
      if parent != tmp {
        done, c', t' := InsertLeftHalf(node, parent, gparent, tmp, c, t);
      } else {
        done, c', t' := InsertRightHalf(node, parent, gparent, c, t);
      }
      if done {
        tree := Plug(c', t');
        Whole(mem, root, c', t'.id, t');
      }
    }

    /** Restores the red-black invariants after `Link`; the walk does not change. */
    method InsertColor(node0: Ptr, ghost c0: Ctx)
      requires Layout(mem, root, c0, node0, Node(Leaf, node0, Red, Leaf))
      requires RbCtx(c0, 0)
      modifies this
      ensures Valid() && mem.Keys == old(mem.Keys)
      ensures Nodes() == Before(c0) + [node0] + After(c0)
    {
      var node := node0;
      var parent := mem[node].parent;
      ghost var c, t := c0, Node(Leaf, node0, Red, Leaf);
      assert InOrder(t) == [node0];
      while true
        invariant Climbing(mem, root, c, node, t) && parent == ParentOf(c)
        invariant Walk(c, t) == Before(c0) + [node0] + After(c0) && mem.Keys == old(mem.Keys)
        decreases Depth(c)
      {
        if parent == NULL {
          InsertRoot(node, t);
          break;
        }
        OpenCtx(mem, root, c, node);
        if mem[parent].color == Black {
          tree := Plug(c, t);
          Whole(mem, root, c, node, t);
          break;
        }
        var done;
        done, node, c, t := InsertRound(node, parent, c, t);
        if done {
          break;
        }
        RootCell(mem, node, ParentOf(c), t);
        parent := mem[node].parent;
      }
    }

    // ---------- erase fix-up: the pointer rewrites of each case ----------

    /** Case 1 with the short side on the left: the sibling is red; rotate left at the parent. */
    method EraseCase1Left(parent: Ptr, sibling: Ptr) returns (tmp1: Ptr)
      requires parent in mem && sibling in mem && parent != sibling && NULL !in mem
      requires var a := mem[sibling].left; a in mem && a != parent && a != sibling
      requires var q := mem[parent].parent;
        q != NULL ==> q in mem && q != parent && q != sibling && q != mem[sibling].left
      modifies this`mem, this`root
      ensures tmp1 == old(mem)[sibling].left
      ensures var q := old(mem)[parent].parent;
        && OnlyChanged(old(mem), mem, {tmp1, sibling, parent, q})
        && mem[sibling] == old(mem)[sibling].(left := parent, parent := q, color := old(mem)[parent].color)
        && mem[parent] == old(mem)[parent].(right := tmp1, parent := sibling, color := Red)
        && mem[tmp1] == old(mem)[tmp1].(parent := parent, color := Black)
        && Redirected(old(mem), mem, old(root), root, q, parent, sibling)
    {
      tmp1 := mem[sibling].left;
      mem := SetRight(mem, parent, tmp1);
      mem := SetLeft(mem, sibling, parent);
      mem := SetParentColor(mem, tmp1, parent, Black);
      RotateSetParents(parent, sibling, Red);
    }

    /** Case 3: the sibling's inner child `tmp2` is red; rotate right at the sibling. The
        links between parent, `tmp2` and sibling are completed by case 4. */
    method EraseCase3Left(parent: Ptr, sibling: Ptr, tmp2: Ptr)
      requires parent in mem && sibling in mem && tmp2 in mem
      requires parent != sibling && tmp2 != parent && tmp2 != sibling
      requires var a := mem[tmp2].right; a != NULL ==> a in mem && a != parent && a != sibling && a != tmp2
      modifies this`mem
      ensures var a := old(mem)[tmp2].right;
        && OnlyChanged(old(mem), mem, {a, tmp2, sibling, parent})
        && mem[sibling] == old(mem)[sibling].(left := a)
        && mem[tmp2] == old(mem)[tmp2].(right := sibling)
        && mem[parent] == old(mem)[parent].(right := tmp2)
        && (a != NULL ==> mem[a] == old(mem)[a].(parent := sibling, color := Black))
    {
      var tmp1 := mem[tmp2].right;
      mem := SetLeft(mem, sibling, tmp1);
      mem := SetRight(mem, tmp2, sibling);
      mem := SetRight(mem, parent, tmp2);
      if tmp1 != NULL {
        mem := SetParentColor(mem, tmp1, sibling, Black);
      }
    }

    /** Case 4: the sibling's outer child `tmp1` is red; rotate left at the parent. */
    method EraseCase4Left(parent: Ptr, sibling: Ptr, tmp1: Ptr)
      requires parent in mem && sibling in mem && tmp1 in mem && NULL !in mem
      requires parent != sibling && tmp1 != parent && tmp1 != sibling
      requires var a := mem[sibling].left; a != NULL ==> a in mem && a != parent && a != sibling && a != tmp1
      requires var q := mem[parent].parent;
        q != NULL ==> q in mem && q != parent && q != sibling && q != tmp1 && q != mem[sibling].left
      modifies this`mem, this`root
      ensures var a := old(mem)[sibling].left;
        var q := old(mem)[parent].parent;
        && OnlyChanged(old(mem), mem, {a, tmp1, sibling, parent, q})
        && mem[sibling] == old(mem)[sibling].(left := parent, parent := q, color := old(mem)[parent].color)
        && mem[parent] == old(mem)[parent].(right := a, parent := sibling, color := Black)
        && mem[tmp1] == old(mem)[tmp1].(parent := sibling, color := Black)
        && (a != NULL ==> mem[a] == old(mem)[a].(parent := parent))
        && Redirected(old(mem), mem, old(root), root, q, parent, sibling)
    {
      var tmp2 := mem[sibling].left;
      mem := SetRight(mem, parent, tmp2);
      mem := SetLeft(mem, sibling, parent);
      mem := SetParentColor(mem, tmp1, sibling, Black);
      if tmp2 != NULL {
        mem := SetParent(mem, tmp2, parent);
      }
      RotateSetParents(parent, sibling, Black);
    }

    /** Case 1 with the short side on the right: the sibling is red; rotate right at the parent. */
    method EraseCase1Right(parent: Ptr, sibling: Ptr) returns (tmp1: Ptr)
      requires parent in mem && sibling in mem && parent != sibling && NULL !in mem
      requires var a := mem[sibling].right; a in mem && a != parent && a != sibling
      requires var q := mem[parent].parent;
        q != NULL ==> q in mem && q != parent && q != sibling && q != mem[sibling].right
      modifies this`mem, this`root
      ensures tmp1 == old(mem)[sibling].right
      ensures var q := old(mem)[parent].parent;
        && OnlyChanged(old(mem), mem, {tmp1, sibling, parent, q})
        && mem[sibling] == old(mem)[sibling].(right := parent, parent := q, color := old(mem)[parent].color)
        && mem[parent] == old(mem)[parent].(left := tmp1, parent := sibling, color := Red)
        && mem[tmp1] == old(mem)[tmp1].(parent := parent, color := Black)
        && Redirected(old(mem), mem, old(root), root, q, parent, sibling)
    {
      tmp1 := mem[sibling].right;
      mem := SetLeft(mem, parent, tmp1);
      mem := SetRight(mem, sibling, parent);
      mem := SetParentColor(mem, tmp1, parent, Black);
      RotateSetParents(parent, sibling, Red);
    }

    /** Case 3: the sibling's inner child `tmp2` is red; rotate left at the sibling. The
        links between parent, `tmp2` and sibling are completed by case 4. */
    method EraseCase3Right(parent: Ptr, sibling: Ptr, tmp2: Ptr)
      requires parent in mem && sibling in mem && tmp2 in mem
      requires parent != sibling && tmp2 != parent && tmp2 != sibling
      requires var a := mem[tmp2].left; a != NULL ==> a in mem && a != parent && a != sibling && a != tmp2
      modifies this`mem
      ensures var a := old(mem)[tmp2].left;
        && OnlyChanged(old(mem), mem, {a, tmp2, sibling, parent})
        && mem[sibling] == old(mem)[sibling].(right := a)
        && mem[tmp2] == old(mem)[tmp2].(left := sibling)
        && mem[parent] == old(mem)[parent].(left := tmp2)
        && (a != NULL ==> mem[a] == old(mem)[a].(parent := sibling, color := Black))
    {
      var tmp1 := mem[tmp2].left;
      mem := SetRight(mem, sibling, tmp1);
      mem := SetLeft(mem, tmp2, sibling);
      mem := SetLeft(mem, parent, tmp2);
      if tmp1 != NULL {
        mem := SetParentColor(mem, tmp1, sibling, Black);
      }
    }

    /** Case 4: the sibling's outer child `tmp1` is red; rotate right at the parent. */
    method EraseCase4Right(parent: Ptr, sibling: Ptr, tmp1: Ptr)
      requires parent in mem && sibling in mem && tmp1 in mem && NULL !in mem
      requires parent != sibling && tmp1 != parent && tmp1 != sibling
      requires var a := mem[sibling].right; a != NULL ==> a in mem && a != parent && a != sibling && a != tmp1
      requires var q := mem[parent].parent;
        q != NULL ==> q in mem && q != parent && q != sibling && q != tmp1 && q != mem[sibling].right
      modifies this`mem, this`root
      ensures var a := old(mem)[sibling].right;
        var q := old(mem)[parent].parent;
        && OnlyChanged(old(mem), mem, {a, tmp1, sibling, parent, q})
        && mem[sibling] == old(mem)[sibling].(right := parent, parent := q, color := old(mem)[parent].color)
        && mem[parent] == old(mem)[parent].(left := a, parent := sibling, color := Black)
        && mem[tmp1] == old(mem)[tmp1].(parent := sibling, color := Black)
        && (a != NULL ==> mem[a] == old(mem)[a].(parent := parent))
        && Redirected(old(mem), mem, old(root), root, q, parent, sibling)
    {
      var tmp2 := mem[sibling].right;
      mem := SetLeft(mem, parent, tmp2);
      mem := SetRight(mem, sibling, parent);
      mem := SetParentColor(mem, tmp1, sibling, Black);
      if tmp2 != NULL {
        mem := SetParent(mem, tmp2, parent);
      }
      RotateSetParents(parent, sibling, Black);
    }

    /** Case 1 below a red sibling on the right: the sibling's inner child becomes the sibling. */
    method EraseRedSiblingLeft(node: Ptr, parent: Ptr, sibling: Ptr, ghost c: Ctx, ghost t: Tree)
      returns (tmp1: Ptr, ghost c': Ctx)
      requires Short(mem, root, c, node, t) && c.InLeft? && parent == c.id
      requires c.sib.Node? && c.sib.color == Red && sibling == c.sib.id
      modifies this`mem, this`root
      ensures mem.Keys == old(mem.Keys)
      ensures Short(mem, root, c', node, t) && Walk(c', t) == Walk(c, t)
      ensures c'.InLeft? && c'.id == parent && c'.color == Red && tmp1 == RootOf(c'.sib) && IsBlack(c'.sib)
    {
      ghost var m0, r0 := mem, root;
      ghost var k := InRight(c.up, c.id, c.color, t);
      RedSibling(c, t);
      Climb(mem, root, c, node, t);
      DescendRight(mem, root, c.up, parent, Attach(c, t));
      Open(mem, parent, ParentOf(c.up), Attach(c, t));
      Surroundings(mem, root, k, sibling, c.sib);
      tmp1 := EraseCase1Left(parent, sibling);
      RotateLeftLayout(m0, mem, r0, root, c.up, Attach(c, t), Black, Red, Black);
      c' := RedSiblingLeftCtx(c);
      RedSiblingLeftLayout(mem, root, c, node, t);
    }

    /** Case 4 alone. */
    method EraseOuterLeft(parent: Ptr, sibling: Ptr, tmp1: Ptr, ghost c: Ctx, ghost t: Tree)
      requires Layout(mem, root, c, parent, t) && t.Node?
      requires t.right.Node? && sibling == t.right.id && t.right.right.Node? && tmp1 == t.right.right.id
      modifies this`mem, this`root
      ensures mem.Keys == old(mem.Keys)
      ensures Layout(mem, root, c, sibling, FinalLeft(t))
    {
      ghost var m0, r0 := mem, root;
      ghost var s, k := t.right, InRight(c, t.id, t.color, t.left);
      Open(mem, parent, ParentOf(c), t);
      DescendRight(mem, root, c, parent, t);
      Surroundings(mem, root, k, sibling, s);
      EraseCase4Left(parent, sibling, tmp1);
      Case4LeftLayout(m0, mem, r0, root, c, t);
    }

    /** Case 3 followed by case 4. */
    method EraseInnerLeft(parent: Ptr, sibling: Ptr, tmp2: Ptr, ghost c: Ctx, ghost t: Tree)
      requires Layout(mem, root, c, parent, t) && t.Node?
      requires t.right.Node? && sibling == t.right.id && t.right.left.Node? && tmp2 == t.right.left.id
      modifies this`mem, this`root
      ensures mem.Keys == old(mem.Keys)
      ensures var s := t.right; Layout(mem, root, c, tmp2,
        FinalLeft(t.(right := RotR(s, s.left.color, s.color, Black))))
    {
      hide Layout, Ids;
      ghost var m0, r0 := mem, root;
      ghost var s, k := t.right, InRight(c, t.id, t.color, t.left);
      FocusCell(mem, root, c, parent, t);
      DescendRight(mem, root, c, parent, t);
      Surroundings(mem, root, k, sibling, s);
      ChildCells(mem, root, k, sibling, s, s.left);
      EraseCase3Left(parent, sibling, tmp2);
      Case3LeftLayout(m0, mem, root, c, t);
      ghost var v := SetParent(SetParent(mem, sibling, tmp2), tmp2, parent);
      ghost var t1 := t.(right := RotR(s, s.left.color, s.color, Black));
      EraseCase4Left(parent, tmp2, sibling);
      Case4LeftLayout(v, mem, r0, root, c, t1);
    }

    /** Case 1 below a red sibling on the left: the sibling's inner child becomes the sibling. */
    method EraseRedSiblingRight(node: Ptr, parent: Ptr, sibling: Ptr, ghost c: Ctx, ghost t: Tree)
      returns (tmp1: Ptr, ghost c': Ctx)
      requires Short(mem, root, c, node, t) && c.InRight? && parent == c.id
      requires c.sib.Node? && c.sib.color == Red && sibling == c.sib.id
      modifies this`mem, this`root
      ensures mem.Keys == old(mem.Keys)
      ensures Short(mem, root, c', node, t) && Walk(c', t) == Walk(c, t)
      ensures c'.InRight? && c'.id == parent && c'.color == Red && tmp1 == RootOf(c'.sib) && IsBlack(c'.sib)
    {
      ghost var m0, r0 := mem, root;
      ghost var k := InLeft(c.up, c.id, c.color, t);
      RedSibling(c, t);
      Climb(mem, root, c, node, t);
      DescendLeft(mem, root, c.up, parent, Attach(c, t));
      Open(mem, parent, ParentOf(c.up), Attach(c, t));
      Surroundings(mem, root, k, sibling, c.sib);
      tmp1 := EraseCase1Right(parent, sibling);
      RotateRightLayout(m0, mem, r0, root, c.up, Attach(c, t), Black, Red, Black);
      c' := RedSiblingRightCtx(c);
      RedSiblingRightLayout(mem, root, c, node, t);
    }

    /** Case 4 alone. */
    method EraseOuterRight(parent: Ptr, sibling: Ptr, tmp1: Ptr, ghost c: Ctx, ghost t: Tree)
      requires Layout(mem, root, c, parent, t) && t.Node?
      requires t.left.Node? && sibling == t.left.id && t.left.left.Node? && tmp1 == t.left.left.id
      modifies this`mem, this`root
      ensures mem.Keys == old(mem.Keys)
      ensures Layout(mem, root, c, sibling, FinalRight(t))
    {
      ghost var m0, r0 := mem, root;
      ghost var s, k := t.left, InLeft(c, t.id, t.color, t.right);
      Open(mem, parent, ParentOf(c), t);
      DescendLeft(mem, root, c, parent, t);
      Surroundings(mem, root, k, sibling, s);
      EraseCase4Right(parent, sibling, tmp1);
      Case4RightLayout(m0, mem, r0, root, c, t);
    }

    /** Case 3 followed by case 4. */
    method EraseInnerRight(parent: Ptr, sibling: Ptr, tmp2: Ptr, ghost c: Ctx, ghost t: Tree)
      requires Layout(mem, root, c, parent, t) && t.Node?
      requires t.left.Node? && sibling == t.left.id && t.left.right.Node? && tmp2 == t.left.right.id
      modifies this`mem, this`root
      ensures mem.Keys == old(mem.Keys)
      ensures var s := t.left; Layout(mem, root, c, tmp2,
        FinalRight(t.(left := RotL(s, s.right.color, s.color, Black))))
    {
      hide Layout, Ids;
      ghost var m0, r0 := mem, root;
      ghost var s, k := t.left, InLeft(c, t.id, t.color, t.right);
      FocusCell(mem, root, c, parent, t);
      DescendLeft(mem, root, c, parent, t);
      Surroundings(mem, root, k, sibling, s);
      ChildCells(mem, root, k, sibling, s, s.right);
      EraseCase3Right(parent, sibling, tmp2);
      Case3RightLayout(m0, mem, root, c, t);
      ghost var v := SetParent(SetParent(mem, sibling, tmp2), tmp2, parent);
      ghost var t1 := t.(left := RotL(s, s.right.color, s.color, Black));
      EraseCase4Right(parent, tmp2, sibling);
      Case4RightLayout(v, mem, r0, root, c, t1);
    }

    /** Case 2: the sibling turns red; a red parent turns black, otherwise the parent
        is the new short subtree. */
    method EraseFlip(node: Ptr, parent: Ptr, sibling: Ptr, ghost c: Ctx, ghost t: Tree)
      returns (done: bool, ghost c': Ctx, ghost t': Tree)
      requires Short(mem, root, c, node, t) && parent == c.id
      requires c.sib.Node? && sibling == c.sib.id && c.sib.color == Black
      requires IsBlack(c.sib.left) && IsBlack(c.sib.right)
      modifies this`mem
      ensures mem.Keys == old(mem.Keys) && Walk(c', t') == Walk(c, t) && c' == c.up
      ensures if done then Settled(mem, root, c', t') else Short(mem, root, c', parent, t') && c.color == Black
    {
      ghost var m0 := mem;
      FlipRb(c, t);
      c', t' := c.up, Flipped(c, t);
      FlipSibling(mem, root, c, node, t);
      mem := SetParentColor(mem, sibling, parent, Red);
      ghost var m1 := mem;
      ghost var p1 := Attach(c.(sib := Paint(c.sib, Red)), t);
      Open(mem, parent, ParentOf(c.up), p1);
      if mem[parent].color == Red {
        mem := SetParentColor(mem, parent, mem[parent].parent, Black);
        PaintFocus(m1, root, c.up, p1, Black);
        done := true;
      } else {
        done := mem[parent].parent == NULL;
      }
    }

    /** Cases 2 to 4 with a black sibling on the right: finish, or move the shortage up. */
    method EraseBlackSiblingLeft(node: Ptr, parent: Ptr, sibling: Ptr, ghost c: Ctx, ghost t: Tree)
      returns (done: bool, ghost c': Ctx, ghost t': Tree)
      requires Short(mem, root, c, node, t) && c.InLeft? && parent == c.id
      requires sibling == RootOf(c.sib) && IsBlack(c.sib)
      modifies this`mem, this`root
      ensures mem.Keys == old(mem.Keys) && Walk(c', t') == Walk(c, t) && c' == c.up
      ensures if done then Settled(mem, root, c', t') else Short(mem, root, c', parent, t') && c.color == Black
    {
      ghost var p := Attach(c, t);
      BlackSibling(c, t);
      Climb(mem, root, c, node, t);
      Open(mem, parent, ParentOf(c.up), p);
      Open(mem, sibling, parent, c.sib);
      RootCell(mem, mem[sibling].left, sibling, c.sib.left);
      RootCell(mem, mem[sibling].right, sibling, c.sib.right);
      RootInIds(c.sib.left);
      RootInIds(c.sib.right);
      var tmp1 := mem[sibling].right;
      if tmp1 == NULL || mem[tmp1].color == Black {
        var tmp2 := mem[sibling].left;
        if tmp2 == NULL || mem[tmp2].color == Black {
          done, c', t' := EraseFlip(node, parent, sibling, c, t);
        } else {
          EraseInnerLeft(parent, sibling, tmp2, c.up, p);
          InnerLeftRb(c, t);
          done, c', t' := true, c.up, FinalLeft(p.(right := RotR(c.sib, c.sib.left.color, c.sib.color, Black)));
        }
      } else {
        EraseOuterLeft(parent, sibling, tmp1, c.up, p);
        OuterLeftRb(c, t);
        done, c', t' := true, c.up, FinalLeft(p);
      }
    }

    /** One round of the fix-up when the short side is the left one. */
    method EraseLeftHalf(node: Ptr, parent: Ptr, sibling0: Ptr, ghost c: Ctx, ghost t: Tree)
      returns (done: bool, ghost c': Ctx, ghost t': Tree)
      requires Short(mem, root, c, node, t) && c.InLeft? && parent == c.id && sibling0 == RootOf(c.sib)
      modifies this`mem, this`root
      ensures mem.Keys == old(mem.Keys) && Walk(c', t') == Walk(c, t)
      ensures if done then Settled(mem, root, c', t')
              else Short(mem, root, c', parent, t') && Depth(c') < Depth(c)
    {
      var sibling := sibling0;
      ghost var k := c;
      SiblingCell(mem, root, c, node, t);
      if mem[sibling].color == Red {
        sibling, k := EraseRedSiblingLeft(node, parent, sibling, c, t);
      }
      done, c', t' := EraseBlackSiblingLeft(node, parent, sibling, k, t);
    }

    /** Cases 2 to 4 with a black sibling on the left: finish, or move the shortage up. */
    method EraseBlackSiblingRight(node: Ptr, parent: Ptr, sibling: Ptr, ghost c: Ctx, ghost t: Tree)
      returns (done: bool, ghost c': Ctx, ghost t': Tree)
      requires Short(mem, root, c, node, t) && c.InRight? && parent == c.id
      requires sibling == RootOf(c.sib) && IsBlack(c.sib)
      modifies this`mem, this`root
      ensures mem.Keys == old(mem.Keys) && Walk(c', t') == Walk(c, t) && c' == c.up
      ensures if done then Settled(mem, root, c', t') else Short(mem, root, c', parent, t') && c.color == Black
    {
      ghost var p := Attach(c, t);
      BlackSibling(c, t);
      Climb(mem, root, c, node, t);
      Open(mem, parent, ParentOf(c.up), p);
      Open(mem, sibling, parent, c.sib);
      RootCell(mem, mem[sibling].left, sibling, c.sib.left);
      RootCell(mem, mem[sibling].right, sibling, c.sib.right);
      RootInIds(c.sib.left);
      RootInIds(c.sib.right);
      var tmp1 := mem[sibling].left;
      if tmp1 == NULL || mem[tmp1].color == Black {
        var tmp2 := mem[sibling].right;
        if tmp2 == NULL || mem[tmp2].color == Black {
          done, c', t' := EraseFlip(node, parent, sibling, c, t);
        } else {
          EraseInnerRight(parent, sibling, tmp2, c.up, p);
          InnerRightRb(c, t);
          done, c', t' := true, c.up, FinalRight(p.(left := RotL(c.sib, c.sib.right.color, c.sib.color, Black)));
        }
      } else {
        EraseOuterRight(parent, sibling, tmp1, c.up, p);
        OuterRightRb(c, t);
        done, c', t' := true, c.up, FinalRight(p);
      }
    }

    /** One round of the fix-up when the short side is the right one. */
    method EraseRightHalf(node: Ptr, parent: Ptr, sibling0: Ptr, ghost c: Ctx, ghost t: Tree)
      returns (done: bool, ghost c': Ctx, ghost t': Tree)
      requires Short(mem, root, c, node, t) && c.InRight? && parent == c.id && sibling0 == RootOf(c.sib)
      modifies this`mem, this`root
      ensures mem.Keys == old(mem.Keys) && Walk(c', t') == Walk(c, t)
      ensures if done then Settled(mem, root, c', t')
              else Short(mem, root, c', parent, t') && Depth(c') < Depth(c)
    {
      var sibling := sibling0;
      ghost var k := c;
      SiblingCell(mem, root, c, node, t);
      if mem[sibling].color == Red {
        sibling, k := EraseRedSiblingRight(node, parent, sibling, c, t);
      }
      done, c', t' := EraseBlackSiblingRight(node, parent, sibling, k, t);
    }

    /** Restores the red-black invariants below `parent0`, one of whose sides is empty
        and one black node short; the walk does not change. */
    method EraseColor(parent0: Ptr, ghost c0: Ctx)
      requires Short(mem, root, c0, NULL, Leaf) && parent0 == c0.id
      modifies this
      ensures Valid() && mem.Keys == old(mem.Keys)
      ensures Nodes() == Before(c0) + After(c0)
    {
      var node, parent := NULL, parent0;
      ghost var c, t := c0, Leaf;
      assert Walk(c0, Leaf) == Before(c0) + After(c0);
      var done := false;
      while !done
        invariant mem.Keys == old(mem.Keys) && Walk(c, t) == Before(c0) + After(c0)
        invariant if done then Settled(mem, root, c, t) else Short(mem, root, c, node, t) && parent == c.id
        decreases !done, Depth(c)
      {
        SiblingCell(mem, root, c, node, t);
        var sibling := mem[parent].right;
        if node != sibling {
          done, c, t := EraseLeftHalf(node, parent, sibling, c, t);
        } else {
          sibling := mem[parent].left;
          done, c, t := EraseRightHalf(node, parent, sibling, c, t);
        }
        if !done {
          node := parent;
          RootCell(mem, node, ParentOf(c), t);
          parent := mem[node].parent;
        }
      }
      tree := Plug(c, t);
      Whole(mem, root, c, t.id, t);
    }

    // ---------- erase ----------

    /** The leftmost node below `child`, with its parent on the way down. */
    method Successor(child: Ptr, ghost base: Ctx, ghost r: Tree)
      returns (successor: Ptr, parent: Ptr, ghost d: Ctx, ghost s: Tree)
      requires Layout(mem, root, base, child, r) && r.Node?
      ensures LeftSpine(d) && s.Node? && s.left.Leaf? && successor == s.id && r == Plug(d, s)
      ensures Layout(mem, root, Graft(d, base), successor, s)
      ensures if d.Top? then successor == child && parent == successor
              else parent == d.id && child == SpineTop(d)
    {
      successor, parent, d, s := child, child, Top, r;
      Open(mem, child, ParentOf(base), r);
      var tmp := mem[child].left;
      while tmp != NULL
        invariant LeftSpine(d) && s.Node? && successor == s.id && r == Plug(d, s)
        invariant Layout(mem, root, Graft(d, base), successor, s)
        invariant tmp == RootOf(s.left)
        invariant if d.Top? then successor == child && parent == successor
                  else parent == d.id && child == SpineTop(d)
        decreases s
      {
        Open(mem, successor, ParentOf(Graft(d, base)), s);
        DescendLeft(mem, root, Graft(d, base), successor, s);
        ghost var l := s.left;
        Open(mem, tmp, successor, l);
        d, s := InLeft(d, s.id, s.color, s.right), l;
        parent := successor;
        successor := tmp;
        tmp := mem[tmp].left;
      }
      RootInIds(s.left);
    }

    /** Puts `successor` in the place of `node`, which has two children. */
    method Splice(node: Ptr, successor: Ptr, parent: Ptr, child: Ptr) returns (rebalance: Ptr)
      requires NULL !in mem && node in mem && successor in mem && parent in mem && child in mem
      requires mem[node].right == child && mem[node].left in mem
      requires node !in {successor, parent, child}
      requires if successor == child then parent == successor else successor !in {parent, child}
      requires mem[node].left !in {node, successor, parent, child}
      requires var b := mem[successor].right;
        b != NULL ==> b in mem && b !in {node, successor, parent, child, mem[node].left}
      requires var q := mem[node].parent;
        q != NULL ==> q in mem && q !in {node, successor, parent, child, mem[node].left, mem[successor].right}
      modifies this`mem, this`root
      ensures var l, b, q := old(mem)[node].left, old(mem)[successor].right, old(mem)[node].parent;
        && OnlyChanged(old(mem), mem, {successor, parent, child, l, b, q})
        && Redirected(old(mem), mem, old(root), root, q, node, successor)
        && mem[successor] == Cell(l, if successor == child then b else child, q, old(mem)[node].color)
        && mem[l] == old(mem)[l].(parent := successor)
        && (b != NULL ==> mem[b] == old(mem)[b].(parent := parent, color := Black))
        && (successor != child && parent == child ==> mem[child] == old(mem)[child].(left := b, parent := successor))
        && (successor != child && parent != child ==> mem[parent] == old(mem)[parent].(left := b) &&
                                                      mem[child] == old(mem)[child].(parent := successor))
      ensures rebalance == if old(mem)[successor].right == NULL &&
        old(mem)[successor].color == Black then parent else NULL
    {
      var child2 := mem[successor].right;
      if successor != child {
        mem := SetLeft(mem, parent, child2);
        mem := SetRight(mem, successor, child);
        mem := SetParent(mem, child, successor);
      }
      var tmp := mem[node].left;
      mem := SetLeft(mem, successor, tmp);
      mem := SetParent(mem, tmp, successor);
      var pc := mem[node];
      ChangeChild(node, successor, pc.parent);
      if child2 != NULL {
        mem := SetParentColor(mem, child2, parent, Black);
        rebalance := NULL;
      } else {
        rebalance := if mem[successor].color == Black then parent else NULL;
      }
      mem := SetParentColor(mem, successor, pc.parent, pc.color);
    }

    /** `_hev_rbtree_erase` for a node with two children. */
    method UnlinkTwo(node: Ptr, ghost c: Ctx, ghost t: Tree)
      returns (rebalance: Ptr, ghost c': Ctx, ghost t': Tree, ghost a: seq<Ptr>, ghost b: seq<Ptr>)
      requires Layout(mem, root, c, node, t) && t.Node? && t.left.Node? && t.right.Node?
      requires ValidRb(Plug(c, t))
      modifies this`mem, this`root
      ensures mem.Keys == old(mem.Keys)
      ensures Unlinked(mem, root, c', t', rebalance)
      ensures Walk(c, t) == a + [node] + b && Walk(c', t') == a + b
    {
      ghost var m0, r0 := mem, root;
      ghost var base := InRight(c, t.id, t.color, t.left);
      Open(mem, node, ParentOf(c), t);
      DescendRight(mem, root, c, node, t);
      var child := mem[node].right;
      var successor, parent;
      ghost var d, s;
      successor, parent, d, s := Successor(child, base, t.right);
      SpliceCells(mem, root, c, t, d, s);
      rebalance := Splice(node, successor, parent, child);
      SpliceSwapped(m0, mem, r0, root, c, t, d, s);
      SwapLayout(m0, mem, r0, root, c, t, d, s);
      SwapRb(c, t, d, s);
      SwapWalk(c, t, d, s);
      c', t' := SwappedCtx(c, t, d, s), Paint(s.right, Black);
      a, b := Before(c) + InOrder(t.left), [s.id] + InOrder(s.right) + After(d) + After(c);
    }

    /** `_hev_rbtree_erase` for a node with at most one child. */
    method UnlinkOne(node: Ptr, ghost c: Ctx, ghost t: Tree)
      returns (rebalance: Ptr, ghost t': Tree, ghost a: seq<Ptr>, ghost b: seq<Ptr>)
      requires Layout(mem, root, c, node, t) && t.Node? && (t.left.Leaf? || t.right.Leaf?)
      requires ValidRb(Plug(c, t))
      modifies this`mem, this`root
      ensures mem.Keys == old(mem.Keys)
      ensures Unlinked(mem, root, c, t', rebalance)
      ensures Walk(c, t) == a + [node] + b && Walk(c, t') == a + b
    {
      ghost var m0, r0 := mem, root;
      OnlyChildCells(mem, root, c, t);
      var child, tmp := mem[node].right, mem[node].left;
      var pc := mem[node];
      if tmp == NULL {
        ChangeChild(node, child, pc.parent);
        if child != NULL {
          mem := SetParentColor(mem, child, pc.parent, pc.color);
          rebalance := NULL;
        } else {
          rebalance := if pc.color == Black then pc.parent else NULL;
        }
      } else {
        mem := SetParentColor(mem, tmp, pc.parent, pc.color);
        ChangeChild(node, tmp, pc.parent);
        rebalance := NULL;
      }
      ghost var e := if t.left.Leaf? then t.right else t.left;
      OnlyChildLayout(m0, mem, r0, root, c, t, e);
      OnlyChildRb(c, t, e);
      OnlyChildWalk(c, t, e);
      t' := Paint(e, t.color);
      a, b := Before(c) + InOrder(t.left), InOrder(t.right) + After(c);
    }

    /** Takes `node` out of the tree without rebalancing. */
    method Unlink(node: Ptr)
      returns (rebalance: Ptr, ghost c: Ctx, ghost t: Tree, ghost a: seq<Ptr>, ghost b: seq<Ptr>)
      requires Valid() && node in Nodes()
      modifies this`mem, this`root
      ensures mem.Keys == old(mem.Keys)
      ensures Unlinked(mem, root, c, t, rebalance)
      ensures old(Nodes()) == a + [node] + b && Walk(c, t) == a + b
    {
      IdsInOrder(tree, node);
      c, t := FocusOn(mem, root, Top, root, tree, node);
      assert Walk(Top, tree) == InOrder(tree);
      OnlyChildCells(mem, root, c, t);
      if mem[node].left == NULL || mem[node].right == NULL {
        rebalance, t, a, b := UnlinkOne(node, c, t);
      } else {
        rebalance, c, t, a, b := UnlinkTwo(node, c, t);
      }
    }

    /** Takes `node` out of the tree and rebalances. */
    method Erase(node: Ptr)
      requires Valid() && node in Nodes()
      modifies this
      ensures Valid() && mem.Keys == old(mem.Keys)
      ensures exists a, b :: old(Nodes()) == a + [node] + b && Nodes() == a + b
    {
      var rebalance;
      ghost var c, t, a, b;
      rebalance, c, t, a, b := Unlink(node);
      if rebalance != NULL {
        EraseColor(rebalance, c);
        assert Walk(c, Leaf) == Before(c) + After(c);
      } else {
        tree := Plug(c, t);
        ClimbToTop(mem, root, c, RootOf(t), t);
        PlugRb(c, t);
        WalkPlug(c, t);
      }
      assert Nodes() == a + b;
    }

    // ---------- walking ----------

    /** The leftmost node, or null in an empty tree. */
    method First() returns (n: Ptr)
      requires Valid()
      ensures n == if Nodes() == [] then NULL else Nodes()[0]
    {
      n := root;
      RootCell(mem, root, NULL, tree);
      RootInIds(tree);
      if n == NULL {
        return;
      }
      ghost var d, s, parent;
      n, parent, d, s := Successor(n, Top, tree);
      FirstOfPlug(d, s);
    }

    /** Climbs while the node is a right child. */
    method NextAbove(node: Ptr, ghost c: Ctx, ghost t: Tree) returns (n: Ptr)
      requires Layout(mem, root, c, node, t) && t.Node?
      ensures n == if After(c) == [] then NULL else After(c)[0]
    {
      ghost var k, e := c, t;
      OnlyChildCells(mem, root, c, t);
      var child := node;
      n := mem[node].parent;
      while n != NULL && child == mem[n].right
        invariant Layout(mem, root, k, child, e) && e.Node? && n == ParentOf(k) && (n == NULL <==> k.Top?)
        invariant n != NULL ==> n in mem
        invariant After(k) == After(c)
        decreases Depth(k)
      {
        ParentCell(mem, root, k, child, e);
        k, e := k.up, Attach(k, e);
        child := n;
        OnlyChildCells(mem, root, k, e);
        n := mem[child].parent;
      }
      if !k.Top? {
        ParentCell(mem, root, k, child, e);
      }
    }

    /** The node after the focus in the walk. */
    method NextFrom(node: Ptr, ghost c: Ctx, ghost t: Tree) returns (n: Ptr)
      requires Layout(mem, root, c, node, t) && t.Node?
      ensures n == NextOf(c, t)
    {
      OnlyChildCells(mem, root, c, t);
      if mem[node].right != NULL {
        ghost var parent, d, s;
        ghost var base := InRight(c, t.id, t.color, t.left);
        DescendRight(mem, root, c, node, t);
        n, parent, d, s := Successor(mem[node].right, base, t.right);
        FirstOfPlug(d, s);
      } else {
        n := NextAbove(node, c, t);
      }
    }

    /** The in-order successor of a linked node, or null after the last one. */
    method Next(node: Ptr) returns (n: Ptr)
      requires Valid() && node in Nodes()
      ensures exists i :: Follows(Nodes(), i, node, n)
    {
      IdsInOrder(tree, node);
      ghost var c, t := FocusOn(mem, root, Top, root, tree, node);
      n := NextFrom(node, c, t);
      NextInWalk(c, t);
      ghost var i := |Before(c) + InOrder(t.left)|;
      assert Nodes() == Walk(Top, tree) == Walk(c, t);
      assert Follows(Nodes(), i, node, n);
    }
  }

  /** The i-th node is `node`, and `n` is the next one, or null. */
  ghost predicate Follows(nodes: seq<Ptr>, i: int, node: Ptr, n: Ptr) {
    0 <= i < |nodes| && nodes[i] == node && n == if i + 1 < |nodes| then nodes[i + 1] else NULL
  }

  ghost function NextOf(c: Ctx, t: Tree): Ptr
    requires t.Node?
  {
    var rest := InOrder(t.right) + After(c);
    if rest == [] then NULL else rest[0]
  }

  lemma {:induction false} NextInWalk(c: Ctx, t: Tree)
    requires t.Node?
    ensures var i := |Before(c) + InOrder(t.left)|;
      var w := Walk(c, t);
      i < |w| && w[i] == t.id && NextOf(c, t) == if i + 1 < |w| then w[i + 1] else NULL
  {
    RegroupMiddle(Before(c), InOrder(t.left), [t.id], InOrder(t.right), After(c));
  }

  lemma {:induction false} ParentCell(m: Mem, root: Ptr, c: Ctx, p: Ptr, t: Tree)
    requires Layout(m, root, c, p, t) && t.Node? && !c.Top?
    ensures c.id in m && p == t.id && (m[c.id].right == p <==> c.InRight?)
    ensures Layout(m, root, c.up, c.id, Attach(c, t))
  {
    OpenCtx(m, root, c, p);
    RootCell(m, p, c.id, t);
    RootInIds(t);
    RootInIds(c.sib);
    Climb(m, root, c, p, t);
  }

  lemma {:induction false} FirstOfPlug(d: Ctx, s: Tree)
    requires LeftSpine(d) && s.Node? && s.left.Leaf?
    ensures InOrder(Plug(d, s)) != [] && InOrder(Plug(d, s))[0] == s.id
  {
    GraftWalk(d, Top);
    WalkPlug(d, s);
    assert InOrder(s) == [] + [s.id] + InOrder(s.right);
  }

  /** The addresses `Splice` works on are there and different. */
  lemma {:induction false} SpliceCells(m: Mem, root: Ptr, c: Ctx, t: Tree, d: Ctx, s: Tree)
    requires HasSuccessor(t, d, s) && Layout(m, root, OldCtx(c, t, d), s.id, s)
    ensures Layout(m, root, c, t.id, t)
    ensures t.id in m && m[t.id] == Cell(t.left.id, if d.Top? then s.id else SpineTop(d), ParentOf(c), t.color)
    ensures s.id in m && m[s.id].right == RootOf(s.right) && m[s.id].color == s.color
    ensures t.left.id in m && t.left.id !in {t.id, s.id}
    ensures t.id != s.id
    ensures s.right.Node? ==> s.right.id in m && s.right.id !in {t.id, s.id, t.left.id}
    ensures !d.Top? ==> d.id in m && SpineTop(d) in m && {d.id, SpineTop(d)} !! {t.id, s.id, t.left.id, RootOf(s.right)}
    ensures var q := ParentOf(c);
      q != NULL ==>
        q in m && q !in {t.id, s.id, t.left.id, RootOf(s.right)} && (!d.Top? ==> q != d.id && q != SpineTop(d))
    ensures NULL !in m
  {
    FocusSuccessor(m, root, c, t, d, s);
    SwapApart(c, t, d, s);
    Open(m, t.id, ParentOf(c), t);
    Open(m, s.id, ParentOf(OldCtx(c, t, d)), s);
    RootCell(m, RootOf(t.left), t.id, t.left);
    RootCell(m, RootOf(s.right), s.id, s.right);
    RootInIds(t.left);
    RootInIds(s.right);
    PlugRoot(d, s);
    if !c.Top? {
      OpenCtx(m, root, c, t.id);
    }
    if !d.Top? {
      OpenCtx(m, root, OldCtx(c, t, d), s.id);
      RootCell(m, RootOf(t.right), t.id, t.right);
      SpineTopIn(d);
      assert d.id in CtxIds(d);
    }
  }

  lemma {:induction false} PlugRoot(d: Ctx, s: Tree)
    requires s.Node?
    ensures Plug(d, s).Node? && RootOf(Plug(d, s)) == if d.Top? then s.id else SpineTop(d)
    decreases d
  {
    if !d.Top? {
      PlugRoot(d.up, Attach(d, s));
    }
  }

  /** What `Splice` does to the cells is the swap of node and successor. */
  lemma {:induction false} SpliceSwapped(m: Mem, m': Mem, root: Ptr, root': Ptr, c: Ctx, t: Tree, d: Ctx, s: Tree)
    requires HasSuccessor(t, d, s) && Layout(m, root, OldCtx(c, t, d), s.id, s)
    requires s.id in m && t.left.id in m && t.id in m
    requires var child := if d.Top? then s.id else SpineTop(d);
      var parent := if d.Top? then s.id else d.id;
      var l, b, q := t.left.id, RootOf(s.right), ParentOf(c);
      && child in m && parent in m
      && OnlyChanged(m, m', {s.id, parent, child, l, b, q})
      && Redirected(m, m', root, root', q, t.id, s.id)
      && m'[s.id] == Cell(l, if s.id == child then b else child, q, t.color)
      && m'[l] == m[l].(parent := s.id)
      && (b != NULL ==> b in m && m'[b] == m[b].(parent := parent, color := Black))
      && (s.id != child && parent == child ==> m'[child] == m[child].(left := b, parent := s.id))
      && (s.id != child && parent != child ==>
           m'[parent] == m[parent].(left := b) && m'[child] == m[child].(parent := s.id))
    ensures Swapped(m, m', root, root', c, t, d, s)
  {
    SwapApart(c, t, d, s);
    RootInIds(t.left);
    RootInIds(s.right);
    if !d.Top? {
      SpineTopIn(d);
      assert d.id in CtxIds(d);
      assert CtxIds(d) !! {s.id, t.left.id, RootOf(s.right), ParentOf(c)} by {
        if !c.Top? { assert c.id in CtxIds(c); }
      }
    }
  }

  /** The addresses `UnlinkOne` works on. */
  lemma {:induction false} OnlyChildCells(m: Mem, root: Ptr, c: Ctx, t: Tree)
    requires t.Node? && Layout(m, root, c, t.id, t)
    ensures t.id in m && m[t.id] == Cell(RootOf(t.left), RootOf(t.right), ParentOf(c), t.color)
    ensures var q := ParentOf(c); q != NULL ==> q in m && q !in {t.id, RootOf(t.left), RootOf(t.right)}
    ensures c.Top? <==> ParentOf(c) == NULL
    ensures t.left.Node? ==> t.left.id in m && t.left.id !in {NULL, t.id}
    ensures t.right.Node? ==> t.right.id in m && t.right.id !in {NULL, t.id}
  {
    Open(m, t.id, ParentOf(c), t);
    RootCell(m, RootOf(t.left), t.id, t.left);
    RootCell(m, RootOf(t.right), t.id, t.right);
    RootInIds(t.left);
    RootInIds(t.right);
    if !c.Top? {
      OpenCtx(m, root, c, t.id);
    }
  }
}
