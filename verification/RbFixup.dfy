/** The cases of the insert and erase fix-ups as rewrites of tree values, what each
    does to the red-black invariants, and how each shows in memory. */
module RbFixup {
  import opened RbShape
  import opened RbStore

  // ---------- insert ----------

  /** The insert loop's invariant: the focus is red and everything else is in order. */
  ghost predicate Climbing(m: Mem, root: Ptr, c: Ctx, node: Ptr, t: Tree) {
    Layout(m, root, c, node, t) && t.Node? && t.color == Red && Rb(t) && RbCtx(c, BlackHeight(t))
  }

  /** A valid focus makes a valid whole tree with the same walk. */
  lemma {:induction false} Whole(m: Mem, root: Ptr, c: Ctx, p: Ptr, t: Tree)
    requires Layout(m, root, c, p, t) && Rb(t) && RbCtx(c, BlackHeight(t))
    requires IsBlack(t) || (!c.Top? && c.color == Black)
    ensures Layout(m, root, Top, root, Plug(c, t)) && ValidRb(Plug(c, t))
    ensures InOrder(Plug(c, t)) == Walk(c, t)
  {
    ClimbToTop(m, root, c, p, t);
    PlugRb(c, t);
    WalkPlug(c, t);
  }

  /** With a red parent there is a grandparent; the focus two levels up. */
  lemma {:induction false} Grandparent(m: Mem, root: Ptr, c: Ctx, p: Ptr, t: Tree)
    requires Layout(m, root, c, p, t) && !c.Top? && !c.up.Top?
    ensures Layout(m, root, c.up, c.id, Attach(c, t))
    ensures Layout(m, root, c.up.up, c.up.id, Attach(c.up, Attach(c, t)))
    ensures Walk(c.up.up, Attach(c.up, Attach(c, t))) == Walk(c, t)
    ensures c.id in m && c.up.id in m
    ensures (if c.InLeft? then m[c.id].right else m[c.id].left) == RootOf(c.sib)
    ensures (if c.InLeft? then m[c.id].left else m[c.id].right) == p
    ensures m[c.id].parent == c.up.id && m[c.up.id].parent == ParentOf(c.up.up)
    ensures c.up.InLeft? ==> m[c.up.id].right != c.id && m[c.up.id].right == RootOf(c.up.sib)
    ensures c.up.InRight? ==> m[c.up.id].right == c.id && m[c.up.id].left == RootOf(c.up.sib)
    ensures c.up.sib.Node? ==> c.up.sib.id in m && m[c.up.sib.id].color == c.up.sib.color && c.up.sib.id != NULL
    ensures c.up.sib.Leaf? ==> RootOf(c.up.sib) == NULL
    ensures p == RootOf(t) && (c.sib.Node? && t.Node? ==> c.sib.id != t.id)
  {
    RootInIds(t);
    RootInIds(c.sib);
    Climb(m, root, c, p, t);
    Climb(m, root, c.up, c.id, Attach(c, t));
    OpenCtx(m, root, c, p);
    OpenCtx(m, root, c.up, c.id);
    RootCell(m, RootOf(c.up.sib), c.up.id, c.up.sib);
    RootCell(m, p, c.id, t);
    RootInIds(c.up.sib);
  }

  /** Case 1 on values. */
  ghost function Recolored(g: Ctx, p: Tree): Tree
    requires !g.Top? && g.sib.Node? && p.Node?
  {
    Attach(g.(color := Red, sib := g.sib.(color := Black)), p.(color := Black))
  }

  /** The situation in which the insert fix-up has to act. */
  ghost predicate RedRed(c: Ctx, t: Tree) {
    && t.Node? && t.color == Red && Rb(t) && RbCtx(c, BlackHeight(t))
    && !c.Top? && c.color == Red && !c.up.Top?
  }

  /** What `RedRed` says about the grandparent. */
  lemma {:induction false} RedRedAbove(c: Ctx, t: Tree)
    requires RedRed(c, t)
    ensures var g, h := c.up, BlackHeight(t);
      g.color == Black && Rb(g.sib) && BlackHeight(g.sib) == h && RbCtx(g.up, h + 1)
    ensures Rb(c.sib) && IsBlack(c.sib) && BlackHeight(c.sib) == BlackHeight(t)
    ensures Rb(t.left) && Rb(t.right) && IsBlack(t.left) && IsBlack(t.right)
    ensures BlackHeight(t.left) == BlackHeight(t) && BlackHeight(t.right) == BlackHeight(t)
    ensures Walk(c, t) == Walk(c.up.up, Attach(c.up, Attach(c, t)))
  {
    assert RbCtx(c.up, BlackHeight(t));
    ClimbWalk(c, t);
    ClimbWalk(c.up, Attach(c, t));
  }

  lemma {:induction false} RecolorRb(c: Ctx, t: Tree)
    requires RedRed(c, t) && c.up.sib.Node? && c.up.sib.color == Red
    ensures var t' := Recolored(c.up, Attach(c, t));
      t'.Node? && t'.color == Red && Rb(t') && RbCtx(c.up.up, BlackHeight(t')) && Walk(c.up.up, t') == Walk(c, t)
  {
    RedRedAbove(c, t);
    var g, p, h := c.up, Attach(c, t), BlackHeight(t);
    var u', p' := g.sib.(color := Black), p.(color := Black);
    assert Rb(u') && BlackHeight(u') == h + 1 && InOrder(u') == InOrder(g.sib);
    assert Rb(p') && BlackHeight(p') == h + 1 && InOrder(p') == InOrder(p);
    assert InOrder(Recolored(g, p)) == InOrder(Attach(g, p));
  }

  /** A black node over two red-black trees of equal black height. */
  lemma {:induction false} JoinBlack(l: Tree, id: Ptr, r: Tree)
    requires Rb(l) && Rb(r) && BlackHeight(l) == BlackHeight(r)
    ensures Rb(Node(l, id, Black, r)) && BlackHeight(Node(l, id, Black, r)) == BlackHeight(l) + 1
  {
  }

  /** A red node over two black red-black trees of equal black height. */
  lemma {:induction false} JoinRed(l: Tree, id: Ptr, r: Tree)
    requires Rb(l) && Rb(r) && BlackHeight(l) == BlackHeight(r) && IsBlack(l) && IsBlack(r)
    ensures Rb(Node(l, id, Red, r)) && BlackHeight(Node(l, id, Red, r)) == BlackHeight(l)
  {
  }

  lemma {:induction false} PaintBlack(t: Tree)
    requires IsBlack(t)
    ensures Paint(t, Black) == t
  {
  }

  lemma {:induction false} InsertedLeftRb(c: Ctx, t: Tree)
    requires RedRed(c, t) && c.up.InLeft? && IsBlack(c.up.sib)
    requires c.InLeft? && c.sib.Node? ==> c.sib.id != t.id
    ensures var gt := Attach(c.up, Attach(c, t));
      var t' := InsertedLeft(gt, t.id);
      Rb(t') && IsBlack(t') && RbCtx(c.up.up, BlackHeight(t')) && Walk(c.up.up, t') == Walk(c, t)
  {
    RedRedAbove(c, t);
    var p, u := Attach(c, t), c.up.sib;
    var gt := Attach(c.up, p);
    PaintBlack(c.sib);
    PaintBlack(t.left);
    PaintBlack(t.right);
    if c.InRight? {
      RotLInOrder(p, Red, Red, Black);
      RotRInOrder(gt.(left := RotL(p, Red, Red, Black)), Black, Red, Black);
      JoinRed(c.sib, p.id, t.left);
      JoinRed(t.right, gt.id, u);
      JoinBlack(Node(c.sib, p.id, Red, t.left), t.id, Node(t.right, gt.id, Red, u));
      assert InsertedLeft(gt, t.id) == Node(Node(c.sib, p.id, Red, t.left), t.id, Black, Node(t.right, gt.id, Red, u));
    } else {
      RotRInOrder(gt, Black, Red, Black);
      JoinRed(c.sib, gt.id, u);
      JoinBlack(t, p.id, Node(c.sib, gt.id, Red, u));
      assert InsertedLeft(gt, t.id) == Node(t, p.id, Black, Node(c.sib, gt.id, Red, u));
    }
  }

  lemma {:induction false} InsertedRightRb(c: Ctx, t: Tree)
    requires RedRed(c, t) && c.up.InRight? && IsBlack(c.up.sib)
    requires c.InRight? && c.sib.Node? ==> c.sib.id != t.id
    ensures var gt := Attach(c.up, Attach(c, t));
      var t' := InsertedRight(gt, t.id);
      Rb(t') && IsBlack(t') && RbCtx(c.up.up, BlackHeight(t')) && Walk(c.up.up, t') == Walk(c, t)
  {
    RedRedAbove(c, t);
    var p, u := Attach(c, t), c.up.sib;
    var gt := Attach(c.up, p);
    PaintBlack(c.sib);
    PaintBlack(t.left);
    PaintBlack(t.right);
    if c.InLeft? {
      RotRInOrder(p, Red, Red, Black);
      RotLInOrder(gt.(right := RotR(p, Red, Red, Black)), Black, Red, Black);
      JoinRed(t.right, p.id, c.sib);
      JoinRed(u, gt.id, t.left);
      JoinBlack(Node(u, gt.id, Red, t.left), t.id, Node(t.right, p.id, Red, c.sib));
      assert InsertedRight(gt, t.id) == Node(Node(u, gt.id, Red, t.left), t.id, Black, Node(t.right, p.id, Red, c.sib));
    } else {
      RotLInOrder(gt, Black, Red, Black);
      JoinRed(u, gt.id, c.sib);
      JoinBlack(Node(u, gt.id, Red, c.sib), p.id, t);
      assert InsertedRight(gt, t.id) == Node(Node(u, gt.id, Red, c.sib), p.id, Black, t);
    }
  }

  /** The subtree after cases 2 and 3 with the parent on the left. */
  ghost function InsertedLeft(t: Tree, node: Ptr): (t': Tree)
    requires t.Node? && t.left.Node?
    ensures t'.Node?
  {
    if t.left.right.Node? && t.left.right.id == node then
      RotR(t.(left := RotL(t.left, t.left.right.color, Red, Black)), t.color, Red, Black)
    else
      RotR(t, t.color, Red, Black)
  }

  /** The subtree after cases 2 and 3 with the parent on the right. */
  ghost function InsertedRight(t: Tree, node: Ptr): (t': Tree)
    requires t.Node? && t.right.Node?
    ensures t'.Node?
  {
    if t.right.left.Node? && t.right.left.id == node then
      RotL(t.(right := RotR(t.right, t.right.left.color, Red, Black)), t.color, Red, Black)
    else
      RotL(t, t.color, Red, Black)
  }

  /** Case 2 is a rotation at the parent once the stale links to and from the
      grandparent are counted as done. */
  lemma {:induction false} Case2LeftLayout(m: Mem, m': Mem, root: Ptr, c: Ctx, t: Tree)
    requires t.Node? && t.left.Node? && t.left.right.Node? && Layout(m, root, c, t.id, t)
    requires var p, n := t.left.id, t.left.right.id;
      var a := RootOf(t.left.right.left);
      && p in m && n in m && t.id in m
      && OnlyChanged(m, m', {n, p, a})
      && m'[n] == m[n].(left := p)
      && m'[p] == m[p].(right := a, parent := n, color := Red)
      && (a != NULL ==> a in m && m'[a] == m[a].(parent := p, color := Black))
    ensures var n := t.left.right;
      var v := SetParent(SetLeft(m', t.id, n.id), n.id, t.id);
      Layout(v, root, c, t.id, t.(left := RotL(t.left, n.color, Red, Black)))
  {
    var p, k := t.left, InLeft(c, t.id, t.color, t.right);
    var n := p.right;
    var v := SetParent(SetLeft(m', t.id, n.id), n.id, t.id);
    DescendLeft(m, root, c, t.id, t);
    Open(m, t.id, ParentOf(c), t);
    Surroundings(m, root, k, p.id, p);
    ChildCells(m, root, k, p.id, p, n);
    RotateLeftLayout(m, v, root, root, k, p, n.color, Red, Black);
    Climb(v, root, k, n.id, RotL(p, n.color, Red, Black));
  }

  lemma {:induction false} Case2RightLayout(m: Mem, m': Mem, root: Ptr, c: Ctx, t: Tree)
    requires t.Node? && t.right.Node? && t.right.left.Node? && Layout(m, root, c, t.id, t)
    requires var p, n := t.right.id, t.right.left.id;
      var a := RootOf(t.right.left.right);
      && p in m && n in m && t.id in m
      && OnlyChanged(m, m', {n, p, a})
      && m'[n] == m[n].(right := p)
      && m'[p] == m[p].(left := a, parent := n, color := Red)
      && (a != NULL ==> a in m && m'[a] == m[a].(parent := p, color := Black))
    ensures var n := t.right.left;
      var v := SetParent(SetRight(m', t.id, n.id), n.id, t.id);
      Layout(v, root, c, t.id, t.(right := RotR(t.right, n.color, Red, Black)))
  {
    var p, k := t.right, InRight(c, t.id, t.color, t.left);
    var n := p.left;
    var v := SetParent(SetRight(m', t.id, n.id), n.id, t.id);
    DescendRight(m, root, c, t.id, t);
    Open(m, t.id, ParentOf(c), t);
    Surroundings(m, root, k, p.id, p);
    ChildCells(m, root, k, p.id, p, n);
    RotateRightLayout(m, v, root, root, k, p, n.color, Red, Black);
    Climb(v, root, k, n.id, RotR(p, n.color, Red, Black));
  }

  // ---------- erase on values and layouts ----------

  /** The erase loop's invariant: paths through the focus are one black node short. */
  ghost predicate Short(m: Mem, root: Ptr, c: Ctx, node: Ptr, t: Tree) {
    Layout(m, root, c, node, t) && !c.Top? && IsBlack(t) && Rb(t) && RbCtx(c, BlackHeight(t) + 1)
  }

  function ColorOf(t: Tree): Color {
    if t.Leaf? then Black else t.color
  }

  /** Below a red sibling the parent is black and the sibling has two black children. */
  lemma {:induction false} RedSibling(c: Ctx, t: Tree)
    requires !c.Top? && RbCtx(c, BlackHeight(t) + 1) && c.sib.Node? && c.sib.color == Red
    ensures c.color == Black && c.sib.left.Node? && c.sib.right.Node?
    ensures IsBlack(c.sib.left) && IsBlack(c.sib.right)
    ensures BlackHeight(c.sib.left) == BlackHeight(c.sib.right) == BlackHeight(t) + 1
  {
  }

  /** Recolouring the focus leaves the rest of the layout alone. */
  lemma {:induction false} PaintFocus(m: Mem, root: Ptr, c: Ctx, t: Tree, color: Color)
    requires t.Node? && Layout(m, root, c, t.id, t) && t.id in m
    ensures Layout(SetParentColor(m, t.id, ParentOf(c), color), root, c, t.id, Paint(t, color))
  {
    var m' := SetParentColor(m, t.id, ParentOf(c), color);
    RootInIds(t);
    FrameCtx(m, m', root, c, t.id);
    Repaint(m, m', t.id, ParentOf(c), ParentOf(c), t, color);
    SeparateSameWalk(c, t, c, Paint(t, color));
  }

  /** The context after case 1 with the short side on the left. */
  ghost function RedSiblingLeftCtx(c: Ctx): Ctx
    requires c.InLeft? && c.sib.Node?
  {
    InLeft(InLeft(c.up, c.sib.id, c.color, c.sib.right), c.id, Red, Paint(c.sib.left, Black))
  }

  lemma {:induction false} RedSiblingLeftLayout(m: Mem, root: Ptr, c: Ctx, node: Ptr, t: Tree)
    requires c.InLeft? && c.sib.Node? && c.sib.color == Red && c.color == Black
    requires Rb(t) && IsBlack(t) && RbCtx(c, BlackHeight(t) + 1) && node == RootOf(t)
    requires Layout(m, root, c.up, c.sib.id, RotL(Attach(c, t), Black, Red, Black))
    ensures Short(m, root, RedSiblingLeftCtx(c), node, t)
    ensures Walk(RedSiblingLeftCtx(c), t) == Walk(c, t)
    ensures IsBlack(RedSiblingLeftCtx(c).sib)
  {
    var r := RotL(Attach(c, t), Black, Red, Black);
    var k := InLeft(c.up, c.sib.id, Black, c.sib.right);
    RotLInOrder(Attach(c, t), Black, Red, Black);
    ClimbWalk(c, t);
    DescendLeft(m, root, c.up, c.sib.id, r);
    DescendLeft(m, root, k, r.left.id, r.left);
    Open(m, c.sib.id, ParentOf(c.up), r);
    Open(m, c.id, c.sib.id, r.left);
    PaintBlack(c.sib.left);
    assert RbCtx(k, BlackHeight(t) + 1);
  }

  /** Case 3 is a rotation at the sibling once the stale links are counted as done. */
  lemma {:induction false} Case3LeftLayout(m: Mem, m': Mem, root: Ptr, c: Ctx, t: Tree)
    requires t.Node? && t.right.Node? && t.right.left.Node? && Layout(m, root, c, t.id, t)
    requires var s, x := t.right.id, t.right.left.id;
      var a := RootOf(t.right.left.right);
      && s in m && x in m && t.id in m
      && OnlyChanged(m, m', {a, x, s, t.id})
      && m'[s] == m[s].(left := a)
      && m'[x] == m[x].(right := s)
      && m'[t.id] == m[t.id].(right := x)
      && (a != NULL ==> a in m && m'[a] == m[a].(parent := s, color := Black))
    ensures var s, x := t.right, t.right.left;
      var v := SetParent(SetParent(m', s.id, x.id), x.id, t.id);
      Layout(v, root, c, t.id, t.(right := RotR(s, x.color, s.color, Black)))
  {
    var s, k := t.right, InRight(c, t.id, t.color, t.left);
    var x := s.left;
    var v := SetParent(SetParent(m', s.id, x.id), x.id, t.id);
    DescendRight(m, root, c, t.id, t);
    Open(m, t.id, ParentOf(c), t);
    Surroundings(m, root, k, s.id, s);
    ChildCells(m, root, k, s.id, s, x);
    RotateRightLayout(m, v, root, root, k, s, x.color, s.color, Black);
    Climb(v, root, k, x.id, RotR(s, x.color, s.color, Black));
  }

  /** Case 4 on values: the sibling comes up in the parent's colour, both its new
      children are black and the subtree that changes sides keeps its colour. */
  ghost function FinalLeft(t: Tree): Tree
    requires t.Node? && t.right.Node? && t.right.right.Node?
  {
    var s := t.right;
    RotL(t.(right := s.(right := Paint(s.right, Black))), t.color, Black, ColorOf(s.left))
  }

  lemma {:induction false} Case4LeftLayout(m: Mem, m': Mem, root: Ptr, root': Ptr, c: Ctx, t: Tree)
    requires t.Node? && t.right.Node? && t.right.right.Node? && Layout(m, root, c, t.id, t)
    requires var s, y, q := t.right.id, t.right.right.id, ParentOf(c);
      var a := RootOf(t.right.left);
      && t.id in m && s in m && y in m
      && OnlyChanged(m, m', {a, y, s, t.id, q})
      && m'[s] == m[s].(left := t.id, parent := q, color := t.color)
      && m'[t.id] == m[t.id].(right := a, parent := s, color := Black)
      && m'[y] == m[y].(parent := s, color := Black)
      && (a != NULL ==> a in m && m'[a] == m[a].(parent := t.id))
      && Redirected(m, m', root, root', q, t.id, s)
    ensures Layout(m', root', c, t.right.id, FinalLeft(t))
  {
    var s, k := t.right, InRight(c, t.id, t.color, t.left);
    var y, ky := s.right, InRight(k, s.id, s.color, s.left);
    Open(m, t.id, ParentOf(c), t);
    DescendRight(m, root, c, t.id, t);
    Open(m, s.id, t.id, s);
    DescendRight(m, root, k, s.id, s);
    Surroundings(m, root, k, s.id, s);
    RootCell(m, RootOf(s.left), s.id, s.left);
    var v := SetParentColor(m, y.id, s.id, Black);
    PaintFocus(m, root, ky, y, Black);
    Climb(v, root, ky, y.id, Paint(y, Black));
    Climb(v, root, k, s.id, s.(right := Paint(y, Black)));
    RotateLeftLayout(v, m', root, root', c, t.(right := s.(right := Paint(y, Black))), t.color, Black, ColorOf(s.left));
  }

  /** The context after case 1 with the short side on the right. */
  ghost function RedSiblingRightCtx(c: Ctx): Ctx
    requires c.InRight? && c.sib.Node?
  {
    InRight(InRight(c.up, c.sib.id, c.color, c.sib.left), c.id, Red, Paint(c.sib.right, Black))
  }

  lemma {:induction false} RedSiblingRightLayout(m: Mem, root: Ptr, c: Ctx, node: Ptr, t: Tree)
    requires c.InRight? && c.sib.Node? && c.sib.color == Red && c.color == Black
    requires Rb(t) && IsBlack(t) && RbCtx(c, BlackHeight(t) + 1) && node == RootOf(t)
    requires Layout(m, root, c.up, c.sib.id, RotR(Attach(c, t), Black, Red, Black))
    ensures Short(m, root, RedSiblingRightCtx(c), node, t)
    ensures Walk(RedSiblingRightCtx(c), t) == Walk(c, t)
    ensures IsBlack(RedSiblingRightCtx(c).sib)
  {
    var r := RotR(Attach(c, t), Black, Red, Black);
    var k := InRight(c.up, c.sib.id, Black, c.sib.left);
    RotRInOrder(Attach(c, t), Black, Red, Black);
    ClimbWalk(c, t);
    DescendRight(m, root, c.up, c.sib.id, r);
    DescendRight(m, root, k, r.right.id, r.right);
    Open(m, c.sib.id, ParentOf(c.up), r);
    Open(m, c.id, c.sib.id, r.right);
    PaintBlack(c.sib.right);
    assert RbCtx(k, BlackHeight(t) + 1);
  }

  /** Case 3 is a rotation at the sibling once the stale links are counted as done. */
  lemma {:induction false} Case3RightLayout(m: Mem, m': Mem, root: Ptr, c: Ctx, t: Tree)
    requires t.Node? && t.left.Node? && t.left.right.Node? && Layout(m, root, c, t.id, t)
    requires var s, x := t.left.id, t.left.right.id;
      var a := RootOf(t.left.right.left);
      && s in m && x in m && t.id in m
      && OnlyChanged(m, m', {a, x, s, t.id})
      && m'[s] == m[s].(right := a)
      && m'[x] == m[x].(left := s)
      && m'[t.id] == m[t.id].(left := x)
      && (a != NULL ==> a in m && m'[a] == m[a].(parent := s, color := Black))
    ensures var s, x := t.left, t.left.right;
      var v := SetParent(SetParent(m', s.id, x.id), x.id, t.id);
      Layout(v, root, c, t.id, t.(left := RotL(s, x.color, s.color, Black)))
  {
    var s, k := t.left, InLeft(c, t.id, t.color, t.right);
    var x := s.right;
    var v := SetParent(SetParent(m', s.id, x.id), x.id, t.id);
    DescendLeft(m, root, c, t.id, t);
    Open(m, t.id, ParentOf(c), t);
    Surroundings(m, root, k, s.id, s);
    ChildCells(m, root, k, s.id, s, x);
    RotateLeftLayout(m, v, root, root, k, s, x.color, s.color, Black);
    Climb(v, root, k, x.id, RotL(s, x.color, s.color, Black));
  }

  /** Case 4 on values: the sibling comes up in the parent's colour, both its new
      children are black and the subtree that changes sides keeps its colour. */
  ghost function FinalRight(t: Tree): Tree
    requires t.Node? && t.left.Node? && t.left.left.Node?
  {
    var s := t.left;
    RotR(t.(left := s.(left := Paint(s.left, Black))), t.color, Black, ColorOf(s.right))
  }

  lemma {:induction false} Case4RightLayout(m: Mem, m': Mem, root: Ptr, root': Ptr, c: Ctx, t: Tree)
    requires t.Node? && t.left.Node? && t.left.left.Node? && Layout(m, root, c, t.id, t)
    requires var s, y, q := t.left.id, t.left.left.id, ParentOf(c);
      var a := RootOf(t.left.right);
      && t.id in m && s in m && y in m
      && OnlyChanged(m, m', {a, y, s, t.id, q})
      && m'[s] == m[s].(right := t.id, parent := q, color := t.color)
      && m'[t.id] == m[t.id].(left := a, parent := s, color := Black)
      && m'[y] == m[y].(parent := s, color := Black)
      && (a != NULL ==> a in m && m'[a] == m[a].(parent := t.id))
      && Redirected(m, m', root, root', q, t.id, s)
    ensures Layout(m', root', c, t.left.id, FinalRight(t))
  {
    var s, k := t.left, InLeft(c, t.id, t.color, t.right);
    var y, ky := s.left, InLeft(k, s.id, s.color, s.right);
    Open(m, t.id, ParentOf(c), t);
    DescendLeft(m, root, c, t.id, t);
    Open(m, s.id, t.id, s);
    DescendLeft(m, root, k, s.id, s);
    Surroundings(m, root, k, s.id, s);
    RootCell(m, RootOf(s.right), s.id, s.right);
    var v := SetParentColor(m, y.id, s.id, Black);
    PaintFocus(m, root, ky, y, Black);
    Climb(v, root, ky, y.id, Paint(y, Black));
    Climb(v, root, k, s.id, s.(left := Paint(y, Black)));
    RotateRightLayout(v, m', root, root', c, t.(left := s.(left := Paint(y, Black))), t.color, Black, ColorOf(s.right));
  }

  /** The value part of `Short`. */
  ghost predicate ShortValue(c: Ctx, t: Tree) {
    !c.Top? && IsBlack(t) && Rb(t) && RbCtx(c, BlackHeight(t) + 1)
  }

  /** The focus fits its context: the tree is valid again. */
  ghost predicate SettledValue(c: Ctx, t: Tree) {
    t.Node? && Rb(t) && RbCtx(c, BlackHeight(t)) && (IsBlack(t) || (!c.Top? && c.color == Black))
  }

  ghost predicate Settled(m: Mem, root: Ptr, c: Ctx, t: Tree) {
    SettledValue(c, t) && Layout(m, root, c, t.id, t)
  }

  /** The short subtree has a sibling, in memory next to the parent. */
  lemma {:induction false} SiblingCell(m: Mem, root: Ptr, c: Ctx, node: Ptr, t: Tree)
    requires Short(m, root, c, node, t)
    ensures c.sib.Node? && c.sib.id in m && m[c.sib.id].color == c.sib.color && c.id in m
    ensures c.InLeft? ==> m[c.id].left == node && m[c.id].right == c.sib.id && node != c.sib.id
    ensures c.InRight? ==> m[c.id].right == node && m[c.id].left == c.sib.id && node != c.sib.id
    ensures m[c.id].parent == ParentOf(c.up)
  {
    OpenCtx(m, root, c, node);
    RootCell(m, node, c.id, t);
    RootInIds(t);
    RootInIds(c.sib);
    RootCell(m, RootOf(c.sib), c.id, c.sib);
  }

  /** A black sibling of a short subtree is a node whose children are as black-high. */
  lemma {:induction false} BlackSibling(c: Ctx, t: Tree)
    requires ShortValue(c, t) && IsBlack(c.sib)
    ensures c.sib.Node? && Rb(c.sib.left) && Rb(c.sib.right)
    ensures BlackHeight(c.sib.left) == BlackHeight(c.sib.right) == BlackHeight(t)
    ensures RbCtx(c.up, BlackHeight(t) + (if c.color == Black then 2 else 1))
    ensures c.color == Red ==> !c.up.Top? && c.up.color == Black
  {
  }

  /** Case 2 on values. */
  ghost function Flipped(c: Ctx, t: Tree): Tree
    requires !c.Top?
  {
    Attach(c.(color := Black, sib := Paint(c.sib, Red)), t)
  }

  lemma {:induction false} FlipRb(c: Ctx, t: Tree)
    requires ShortValue(c, t) && c.sib.Node? && c.sib.color == Black
    requires IsBlack(c.sib.left) && IsBlack(c.sib.right)
    ensures Walk(c.up, Flipped(c, t)) == Walk(c, t)
    ensures c.color == Red || c.up.Top? ==> SettledValue(c.up, Flipped(c, t))
    ensures c.color == Black && !c.up.Top? ==> ShortValue(c.up, Flipped(c, t))
  {
    BlackSibling(c, t);
    ClimbWalk(c, t);
    var s := Paint(c.sib, Red);
    assert Rb(s) && BlackHeight(s) == BlackHeight(t) && InOrder(s) == InOrder(c.sib);
    if c.InLeft? { JoinBlack(t, c.id, s); } else { JoinBlack(s, c.id, t); }
    assert InOrder(Flipped(c, t)) == InOrder(Attach(c, t));
  }

  /** Painting the sibling red, seen from the parent. */
  lemma {:induction false} FlipSibling(m: Mem, root: Ptr, c: Ctx, node: Ptr, t: Tree)
    requires Layout(m, root, c, node, t) && !c.Top? && c.sib.Node?
    ensures c.sib.id in m && c.id in m
    ensures Layout(SetParentColor(m, c.sib.id, c.id, Red), root, c.up, c.id, Attach(c.(sib := Paint(c.sib, Red)), t))
  {
    var p := Attach(c, t);
    OpenCtx(m, root, c, node);
    RootCell(m, RootOf(c.sib), c.id, c.sib);
    Climb(m, root, c, node, t);
    var k;
    if c.InLeft? {
      DescendRight(m, root, c.up, c.id, p);
      k := InRight(c.up, c.id, c.color, t);
    } else {
      DescendLeft(m, root, c.up, c.id, p);
      k := InLeft(c.up, c.id, c.color, t);
    }
    PaintFocus(m, root, k, c.sib, Red);
    Climb(SetParentColor(m, c.sib.id, c.id, Red), root, k, c.sib.id, Paint(c.sib, Red));
  }

  /** Two black trees, one black node higher than the short subtree, under a node in
      the parent's colour. */
  lemma {:induction false} JoinSettled(c: Ctx, l: Tree, id: Ptr, r: Tree)
    requires !c.Top? && Rb(l) && Rb(r) && IsBlack(l) && IsBlack(r)
    requires BlackHeight(l) == BlackHeight(r) && RbCtx(c, BlackHeight(l))
    ensures SettledValue(c.up, Node(l, id, c.color, r))
  {
  }

  lemma {:induction false} OuterLeftRb(c: Ctx, t: Tree)
    requires ShortValue(c, t) && c.InLeft? && c.sib.Node? && c.sib.color == Black && !IsBlack(c.sib.right)
    ensures SettledValue(c.up, FinalLeft(Attach(c, t))) && Walk(c.up, FinalLeft(Attach(c, t))) == Walk(c, t)
  {
    var p, s := Attach(c, t), c.sib;
    var y := Paint(s.right, Black);
    var p1 := p.(right := s.(right := y));
    BlackSibling(c, t);
    ClimbWalk(c, t);
    assert Rb(y) && BlackHeight(y) == BlackHeight(t) + 1 && InOrder(y) == InOrder(s.right);
    assert InOrder(s.(right := y)) == InOrder(s);
    assert InOrder(p1) == InOrder(p);
    RotLInOrder(p1, p.color, Black, ColorOf(s.left));
    JoinBlack(t, p.id, s.left);
    var n := Node(t, p.id, Black, s.left);
    assert Paint(s.left, ColorOf(s.left)) == s.left;
    assert FinalLeft(p) == Node(n, s.id, p.color, y);
    JoinSettled(c, n, s.id, y);
  }

  lemma {:induction false} InnerLeftRb(c: Ctx, t: Tree)
    requires ShortValue(c, t) && c.InLeft? && c.sib.Node? && c.sib.color == Black
    requires IsBlack(c.sib.right) && !IsBlack(c.sib.left)
    ensures var s := c.sib;
      var t' := FinalLeft(Attach(c, t).(right := RotR(s, s.left.color, s.color, Black)));
      SettledValue(c.up, t') && Walk(c.up, t') == Walk(c, t)
  {
    var p, s := Attach(c, t), c.sib;
    var x := s.left;
    var s1 := RotR(s, x.color, s.color, Black);
    BlackSibling(c, t);
    assert IsBlack(x.left) && IsBlack(x.right) && Rb(x.left) && Rb(x.right);
    assert BlackHeight(x.left) == BlackHeight(t) && BlackHeight(x.right) == BlackHeight(t);
    PaintBlack(x.right);
    ClimbWalk(c, t);
    RotRInOrder(s, x.color, s.color, Black);
    var y := s1.right;
    PaintBlack(y);
    var p1 := p.(right := s1);
    assert s1.(right := Paint(y, Black)) == s1;
    assert InOrder(p1) == InOrder(p);
    RotLInOrder(p1, p.color, Black, ColorOf(x.left));
    PaintBlack(x.left);
    JoinBlack(t, p.id, x.left);
    JoinBlack(x.right, s.id, s.right);
    var n1, n2 := Node(t, p.id, Black, x.left), Node(x.right, s.id, Black, s.right);
    assert FinalLeft(p1) == Node(n1, x.id, p.color, n2);
    JoinSettled(c, n1, x.id, n2);
  }

  lemma {:induction false} OuterRightRb(c: Ctx, t: Tree)
    requires ShortValue(c, t) && c.InRight? && c.sib.Node? && c.sib.color == Black && !IsBlack(c.sib.left)
    ensures SettledValue(c.up, FinalRight(Attach(c, t))) && Walk(c.up, FinalRight(Attach(c, t))) == Walk(c, t)
  {
    var p, s := Attach(c, t), c.sib;
    var y := Paint(s.left, Black);
    var p1 := p.(left := s.(left := y));
    BlackSibling(c, t);
    ClimbWalk(c, t);
    assert Rb(y) && BlackHeight(y) == BlackHeight(t) + 1 && InOrder(y) == InOrder(s.left);
    assert InOrder(s.(left := y)) == InOrder(s);
    assert InOrder(p1) == InOrder(p);
    RotRInOrder(p1, p.color, Black, ColorOf(s.right));
    JoinBlack(s.right, p.id, t);
    var n := Node(s.right, p.id, Black, t);
    assert Paint(s.right, ColorOf(s.right)) == s.right;
    assert FinalRight(p) == Node(y, s.id, p.color, n);
    JoinSettled(c, y, s.id, n);
  }

  lemma {:induction false} InnerRightRb(c: Ctx, t: Tree)
    requires ShortValue(c, t) && c.InRight? && c.sib.Node? && c.sib.color == Black
    requires IsBlack(c.sib.left) && !IsBlack(c.sib.right)
    ensures var s := c.sib;
      var t' := FinalRight(Attach(c, t).(left := RotL(s, s.right.color, s.color, Black)));
      SettledValue(c.up, t') && Walk(c.up, t') == Walk(c, t)
  {
    var p, s := Attach(c, t), c.sib;
    var x := s.right;
    var s1 := RotL(s, x.color, s.color, Black);
    BlackSibling(c, t);
    assert IsBlack(x.left) && IsBlack(x.right) && Rb(x.left) && Rb(x.right);
    assert BlackHeight(x.left) == BlackHeight(t) && BlackHeight(x.right) == BlackHeight(t);
    PaintBlack(x.left);
    ClimbWalk(c, t);
    RotLInOrder(s, x.color, s.color, Black);
    var y := s1.left;
    PaintBlack(y);
    var p1 := p.(left := s1);
    assert s1.(left := Paint(y, Black)) == s1;
    assert InOrder(p1) == InOrder(p);
    RotRInOrder(p1, p.color, Black, ColorOf(x.right));
    PaintBlack(x.right);
    JoinBlack(x.right, p.id, t);
    JoinBlack(s.left, s.id, x.left);
    var n1, n2 := Node(x.right, p.id, Black, t), Node(s.left, s.id, Black, x.left);
    assert FinalRight(p1) == Node(n2, x.id, p.color, n1);
    JoinSettled(c, n2, x.id, n1);
  }
}
