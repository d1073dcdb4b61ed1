/** How a red-black tree lies in memory: cells with left, right, parent and
    colour, and the relation between such a store and a tree value. */
module RbStore {
  import opened RbShape

  /** One `HevRBTreeNode`; the packed parent/colour word is kept as two fields. */
  datatype Cell = Cell(left: Ptr, right: Ptr, parent: Ptr, color: Color)

  type Mem = map<Ptr, Cell>

  function SetLeft(m: Mem, n: Ptr, v: Ptr): Mem
    requires n in m
  {
    m[n := m[n].(left := v)]
  }

  function SetRight(m: Mem, n: Ptr, v: Ptr): Mem
    requires n in m
  {
    m[n := m[n].(right := v)]
  }

  function SetParent(m: Mem, n: Ptr, v: Ptr): Mem
    requires n in m
  {
    m[n := m[n].(parent := v)]
  }

  function SetParentColor(m: Mem, n: Ptr, v: Ptr, c: Color): Mem
    requires n in m
  {
    m[n := m[n].(parent := v, color := c)]
  }

  /** The subtree `t` hangs at address `p` below `parent`. */
  ghost predicate Repr(m: Mem, p: Ptr, parent: Ptr, t: Tree)
    decreases t
  {
    if t.Leaf? then p == NULL
    else
      && p == t.id && p in m
      && m[p].color == t.color && m[p].parent == parent
      && Repr(m, m[p].left, p, t.left)
      && Repr(m, m[p].right, p, t.right)
  }

  /** The context `c` surrounds a hole that currently points at `hole`. */
  ghost predicate ReprCtx(m: Mem, root: Ptr, c: Ctx, hole: Ptr)
    decreases c
  {
    if c.Top? then root == hole
    else
      && c.id in m
      && m[c.id].color == c.color && m[c.id].parent == ParentOf(c.up)
      && (if c.InLeft? then m[c.id].left else m[c.id].right) == hole
      && Repr(m, if c.InLeft? then m[c.id].right else m[c.id].left, c.id, c.sib)
      && ReprCtx(m, root, c.up, c.id)
  }

  ghost predicate NoDups(s: seq<Ptr>) {
    forall i, j :: 0 <= i < j < |s| ==> s[i] != s[j]
  }

  ghost predicate Separate(c: Ctx, t: Tree) {
    DistinctCtx(c) && Distinct(t) && CtxIds(c) !! Ids(t)
  }

  /** A whole tree in memory, seen from the subtree `t` at `p`. */
  ghost predicate Layout(m: Mem, root: Ptr, c: Ctx, p: Ptr, t: Tree) {
    && ReprCtx(m, root, c, p)
    && Repr(m, p, ParentOf(c), t)
    && Separate(c, t)
    && NULL !in m
  }

  // Separation follows the in-order walk, which rotations do not change.

  lemma {:induction false} NoDupsAppend(a: seq<Ptr>, b: seq<Ptr>)
    ensures NoDups(a + b) <==> NoDups(a) && NoDups(b) && (forall x :: x in a ==> x !in b)
  {
    var s := a + b;
    if NoDups(s) {
      forall i, j | 0 <= i < j < |a| ensures a[i] != a[j] {
        assert s[i] == a[i] && s[j] == a[j];
      }
      forall i, j | 0 <= i < j < |b| ensures b[i] != b[j] {
        assert s[|a| + i] == b[i] && s[|a| + j] == b[j];
      }
      forall x | x in a ensures x !in b {
        var i :| 0 <= i < |a| && a[i] == x;
        forall j | 0 <= j < |b| ensures b[j] != x {
          assert s[i] == x && s[|a| + j] == b[j];
        }
      }
    }
    if NoDups(a) && NoDups(b) && (forall x :: x in a ==> x !in b) {
      forall i, j | 0 <= i < j < |s| ensures s[i] != s[j] {
        if j < |a| {
          assert s[i] == a[i] && s[j] == a[j];
        } else if i < |a| {
          assert s[i] == a[i] && s[j] == b[j - |a|];
          assert a[i] in a && b[j - |a|] in b;
        } else {
          assert s[i] == b[i - |a|] && s[j] == b[j - |a|];
        }
      }
    }
  }

  lemma {:induction false} IdsInOrder(t: Tree, x: Ptr)
    ensures x in InOrder(t) <==> x in Ids(t)
  {
    if t.Node? {
      IdsInOrder(t.left, x);
      IdsInOrder(t.right, x);
    }
  }

  lemma {:induction false} DistinctIffNoDups(t: Tree)
    ensures Distinct(t) <==> NoDups(InOrder(t)) && NULL !in InOrder(t)
  {
    if t.Node? {
      var l, r := InOrder(t.left), InOrder(t.right);
      DistinctIffNoDups(t.left);
      DistinctIffNoDups(t.right);
      NoDupsAppend(l + [t.id], r);
      NoDupsAppend(l, [t.id]);
      forall x ensures (x in l <==> x in Ids(t.left)) && (x in r <==> x in Ids(t.right)) {
        IdsInOrder(t.left, x);
        IdsInOrder(t.right, x);
      }
    }
  }

  lemma {:induction false} SeparatePlug(c: Ctx, t: Tree)
    ensures Separate(c, t) <==> Distinct(Plug(c, t))
    decreases c
  {
    if !c.Top? {
      SeparatePlug(c.up, Attach(c, t));
      SeparateStep(c, t);
    }
  }

  lemma {:induction false} SeparateStep(c: Ctx, t: Tree)
    requires !c.Top?
    ensures Separate(c, t) <==> Separate(c.up, Attach(c, t))
  {
  }

  /** Two ways to cut trees with the same walk are separate together. */
  lemma {:induction false} SeparateSameWalk(c: Ctx, t: Tree, c': Ctx, t': Tree)
    requires Separate(c, t) && Walk(c, t) == Walk(c', t')
    ensures Separate(c', t')
  {
    SeparatePlug(c, t);
    SeparatePlug(c', t');
    WalkPlug(c, t);
    WalkPlug(c', t');
    DistinctIffNoDups(Plug(c, t));
    DistinctIffNoDups(Plug(c', t'));
  }

  /** The two stores hold the same cells at the addresses in `s`. */
  ghost predicate SameOn(m: Mem, m': Mem, s: set<Ptr>) {
    forall q :: q in s && q in m ==> q in m' && m'[q] == m[q]
  }

  lemma {:induction false} RootCell(m: Mem, p: Ptr, parent: Ptr, t: Tree)
    requires Repr(m, p, parent, t)
    ensures p == RootOf(t)
    ensures t.Node? ==> p in m && m[p].color == t.color && m[p].parent == parent
  {
  }

  /** One level of a tree in memory. */
  lemma {:induction false} Open(m: Mem, p: Ptr, parent: Ptr, t: Tree)
    requires Repr(m, p, parent, t) && t.Node?
    ensures p == t.id && p in m && m[p] == Cell(RootOf(t.left), RootOf(t.right), parent, t.color)
    ensures Repr(m, m[p].left, p, t.left) && Repr(m, m[p].right, p, t.right)
  {
    RootCell(m, m[p].left, p, t.left);
    RootCell(m, m[p].right, p, t.right);
  }

  /** One level of a context in memory. */
  lemma {:induction false} OpenCtx(m: Mem, root: Ptr, c: Ctx, hole: Ptr)
    requires ReprCtx(m, root, c, hole) && !c.Top?
    ensures c.id in m
    ensures c.InLeft? ==> m[c.id] == Cell(hole, RootOf(c.sib), ParentOf(c.up), c.color)
    ensures c.InRight? ==> m[c.id] == Cell(RootOf(c.sib), hole, ParentOf(c.up), c.color)
    ensures Repr(m, if c.InLeft? then m[c.id].right else m[c.id].left, c.id, c.sib)
    ensures ReprCtx(m, root, c.up, c.id)
  {
    RootCell(m, if c.InLeft? then m[c.id].right else m[c.id].left, c.id, c.sib);
  }

  lemma {:induction false} RootInIds(t: Tree)
    ensures t.Node? ==> t.id in Ids(t)
    ensures Distinct(t) && t.Node? ==> t.id != NULL
  {
  }

  /** Outside `s` the two stores agree, and they have the same addresses. */
  ghost predicate OnlyChanged(m: Mem, m': Mem, s: set<Ptr>) {
    m'.Keys == m.Keys && forall q :: q in m && q !in s ==> m'[q] == m[q]
  }

  lemma {:induction false} MakeNode(m: Mem, p: Ptr, parent: Ptr, l: Tree, color: Color, r: Tree)
    requires p in m && m[p] == Cell(RootOf(l), RootOf(r), parent, color)
    requires Repr(m, RootOf(l), p, l) && Repr(m, RootOf(r), p, r)
    ensures Repr(m, p, parent, Node(l, p, color, r))
  {
  }

  lemma {:induction false} NullNotIn(t: Tree)
    requires Distinct(t)
    ensures NULL !in Ids(t)
  {
    if t.Node? {
      NullNotIn(t.left);
      NullNotIn(t.right);
    }
  }

  /** Everything a separate layout keeps apart around the edge between `c` and `t`. */
  lemma {:induction false} Apart(c: Ctx, t: Tree)
    requires !c.Top? && t.Node? && Separate(c, t)
    ensures var s := {t.id, c.id, ParentOf(c.up)};
      && s !! Ids(t.left) && s !! Ids(t.right) && s !! Ids(c.sib)
      && t.id != c.id && t.id != ParentOf(c.up) && c.id != ParentOf(c.up) && t.id != NULL && c.id != NULL
    ensures Ids(t.left) !! Ids(t.right) !! Ids(c.sib) !! CtxIds(c.up)
    ensures t.id !in CtxIds(c.up) && c.id !in CtxIds(c.up)
    ensures Distinct(t.left) && Distinct(t.right) && Distinct(c.sib) && DistinctCtx(c.up)
  {
    NullNotIn(t);
    NullNotIn(c.sib);
  }

  // ---------- frame lemmas ----------

  lemma {:induction false} FrameTree(m: Mem, m': Mem, p: Ptr, parent: Ptr, t: Tree)
    requires Repr(m, p, parent, t) && SameOn(m, m', Ids(t))
    ensures Repr(m', p, parent, t)
    decreases t
  {
    if t.Node? {
      FrameTree(m, m', m[p].left, p, t.left);
      FrameTree(m, m', m[p].right, p, t.right);
    }
  }

  lemma {:induction false} FrameCtx(m: Mem, m': Mem, root: Ptr, c: Ctx, hole: Ptr)
    requires ReprCtx(m, root, c, hole) && SameOn(m, m', CtxIds(c))
    ensures ReprCtx(m', root, c, hole)
    decreases c
  {
    if !c.Top? {
      FrameTree(m, m', if c.InLeft? then m[c.id].right else m[c.id].left, c.id, c.sib);
      FrameCtx(m, m', root, c.up, c.id);
    }
  }

  /** Only the root cell of `t` changed, and only in its parent and colour. */
  lemma {:induction false} Repaint(m: Mem, m': Mem, p: Ptr, parent: Ptr, parent': Ptr, t: Tree, color': Color)
    requires t.Node? && Repr(m, p, parent, t) && Distinct(t)
    requires SameOn(m, m', Ids(t) - {p})
    requires p in m' && m'[p] == m[p].(parent := parent', color := color')
    ensures Repr(m', p, parent', t.(color := color'))
  {
    FrameTree(m, m', m[p].left, p, t.left);
    FrameTree(m, m', m[p].right, p, t.right);
  }

  /** `Repaint` for a subtree that may be empty, keeping its colour. */
  lemma {:induction false} Reparent(m: Mem, m': Mem, p: Ptr, parent: Ptr, parent': Ptr, t: Tree)
    requires Repr(m, p, parent, t) && Distinct(t)
    requires SameOn(m, m', Ids(t) - {p})
    requires t.Node? ==> p in m' && m'[p] == m[p].(parent := parent')
    ensures Repr(m', p, parent', t)
  {
    if t.Node? {
      Repaint(m, m', p, parent, parent', t, t.color);
      assert t.(color := t.color) == t;
    }
  }

  /** The slot that holds the hole's address, after it was pointed at `hole'`. */
  ghost predicate SlotMoved(m: Mem, m': Mem, root: Ptr, root': Ptr, c: Ctx, hole': Ptr) {
    match c
    case Top => root' == hole'
    case InLeft(_, id, _, _) => root' == root && id in m && id in m' && m'[id] == m[id].(left := hole')
    case InRight(_, id, _, _) => root' == root && id in m && id in m' && m'[id] == m[id].(right := hole')
  }

  lemma {:induction false} MoveHole(m: Mem, m': Mem, root: Ptr, root': Ptr, c: Ctx, hole: Ptr, hole': Ptr)
    requires ReprCtx(m, root, c, hole) && DistinctCtx(c)
    requires SlotMoved(m, m', root, root', c, hole')
    requires SameOn(m, m', CtxIds(c) - {ParentOf(c)})
    ensures ReprCtx(m', root', c, hole')
  {
    if !c.Top? {
      FrameTree(m, m', if c.InLeft? then m[c.id].right else m[c.id].left, c.id, c.sib);
      FrameCtx(m, m', root, c.up, c.id);
    }
  }

  // ---------- moving the focus ----------

  /** One step up: the hole's parent becomes the focus. */
  lemma {:induction false} Climb(m: Mem, root: Ptr, c: Ctx, p: Ptr, t: Tree)
    requires Layout(m, root, c, p, t) && !c.Top?
    ensures Layout(m, root, c.up, c.id, Attach(c, t))
    ensures Walk(c.up, Attach(c, t)) == Walk(c, t)
    ensures Plug(c.up, Attach(c, t)) == Plug(c, t)
  {
    SeparateStep(c, t);
    ClimbWalk(c, t);
  }

  /** The cell of the focus. */
  lemma {:induction false} FocusCell(m: Mem, root: Ptr, c: Ctx, p: Ptr, t: Tree)
    requires Layout(m, root, c, p, t) && t.Node?
    ensures p == t.id && p in m && m[p] == Cell(RootOf(t.left), RootOf(t.right), ParentOf(c), t.color) && NULL !in m
  {
    Open(m, p, ParentOf(c), t);
  }

  lemma {:induction false} DescendLeft(m: Mem, root: Ptr, c: Ctx, p: Ptr, t: Tree)
    requires Layout(m, root, c, p, t) && t.Node?
    ensures Layout(m, root, InLeft(c, t.id, t.color, t.right), m[p].left, t.left)
    ensures Walk(InLeft(c, t.id, t.color, t.right), t.left) == Walk(c, t)
  {
    ClimbWalk(InLeft(c, t.id, t.color, t.right), t.left);
    SeparateStep(InLeft(c, t.id, t.color, t.right), t.left);
  }

  lemma {:induction false} DescendRight(m: Mem, root: Ptr, c: Ctx, p: Ptr, t: Tree)
    requires Layout(m, root, c, p, t) && t.Node?
    ensures Layout(m, root, InRight(c, t.id, t.color, t.left), m[p].right, t.right)
    ensures Walk(InRight(c, t.id, t.color, t.left), t.right) == Walk(c, t)
  {
    ClimbWalk(InRight(c, t.id, t.color, t.left), t.right);
    SeparateStep(InRight(c, t.id, t.color, t.left), t.right);
  }

  /** All the way up. */
  lemma {:induction false} ClimbToTop(m: Mem, root: Ptr, c: Ctx, p: Ptr, t: Tree)
    requires Layout(m, root, c, p, t)
    ensures Layout(m, root, Top, root, Plug(c, t))
    decreases c
  {
    if !c.Top? {
      Climb(m, root, c, p, t);
      ClimbToTop(m, root, c.up, c.id, Attach(c, t));
    }
  }

  /** The context and subtree at node `n` of a tree laid out in memory. */
  lemma {:induction false} FocusOn(m: Mem, root: Ptr, c: Ctx, p: Ptr, t: Tree, n: Ptr) returns (c': Ctx, t': Tree)
    requires Layout(m, root, c, p, t) && n in Ids(t)
    ensures Layout(m, root, c', n, t') && t'.Node? && t'.id == n
    ensures Plug(c', t') == Plug(c, t)
    ensures Walk(c', t') == Walk(c, t)
    decreases t
  {
    if t.id == n {
      c', t' := c, t;
    } else if n in Ids(t.left) {
      DescendLeft(m, root, c, p, t);
      c', t' := FocusOn(m, root, InLeft(c, t.id, t.color, t.right), m[p].left, t.left, n);
    } else {
      DescendRight(m, root, c, p, t);
      c', t' := FocusOn(m, root, InRight(c, t.id, t.color, t.left), m[p].right, t.right, n);
    }
  }

  /** The slot of `q` (or the root) that held `from` now holds `to`. */
  ghost predicate Redirected(m: Mem, m': Mem, root: Ptr, root': Ptr, q: Ptr, from: Ptr, to: Ptr) {
    if q == NULL then root' == to
    else
      && root' == root && q in m && q in m'
      && m'[q] == if m[q].left == from then m[q].(left := to) else m[q].(right := to)
  }


  // ---------- rotations ----------

  /** The cells next to the edge between `c` and `t`, and that they are different. */
  lemma {:induction false} Surroundings(m: Mem, root: Ptr, c: Ctx, p: Ptr, t: Tree)
    requires !c.Top? && t.Node? && Layout(m, root, c, p, t)
    ensures p == t.id && p in m && c.id in m && p != c.id && p != NULL && c.id != NULL
    ensures m[p] == Cell(RootOf(t.left), RootOf(t.right), c.id, t.color)
    ensures c.InLeft? ==> m[c.id] == Cell(p, RootOf(c.sib), ParentOf(c.up), c.color)
    ensures c.InRight? ==> m[c.id] == Cell(RootOf(c.sib), p, ParentOf(c.up), c.color)
    ensures var q := ParentOf(c.up); c.up.Top? == (q == NULL) && q != p && q != c.id && (q != NULL ==> q in m)
    ensures c.up.InLeft? ==> m[c.up.id].left == c.id
    ensures c.up.InRight? ==> m[c.up.id].left != c.id && m[c.up.id].right == c.id
    ensures t.left.Node? ==> NodeCell(m, c, t, t.left.id)
    ensures t.right.Node? ==> NodeCell(m, c, t, t.right.id)
    ensures t.left.Node? && t.right.Node? ==> t.left.id != t.right.id
    ensures c.sib.Node? ==> NodeCell(m, c, t, c.sib.id) && c.sib.id !in Ids(t)
  {
    Open(m, p, c.id, t);
    OpenCtx(m, root, c, p);
    if !c.up.Top? {
      OpenCtx(m, root, c.up, c.id);
      RootInIds(c.up.sib);
    }
    RootInIds(c.sib);
    RootInIds(t.left);
    RootInIds(t.right);
    RootCell(m, m[p].left, p, t.left);
    RootCell(m, m[p].right, p, t.right);
  }

  /** `n` is a node apart from `t`, its parent and its grandparent. */
  ghost predicate NodeCell(m: Mem, c: Ctx, t: Tree, n: Ptr)
    requires !c.Top? && t.Node?
  {
    n in m && n != NULL && n != t.id && n != c.id && n != ParentOf(c.up)
  }

  /** The same one level further down, at the child `n` of `t`. */
  lemma {:induction false} ChildCells(m: Mem, root: Ptr, c: Ctx, p: Ptr, t: Tree, n: Tree)
    requires !c.Top? && t.Node? && Layout(m, root, c, p, t)
    requires n.Node? && (n == t.left || n == t.right)
    ensures n.id in m && m[n.id] == Cell(RootOf(n.left), RootOf(n.right), t.id, n.color)
    ensures Repr(m, n.id, t.id, n)
    ensures n.left.Node? ==> NodeCell(m, c, t, n.left.id) && n.left.id != n.id
    ensures n.right.Node? ==> NodeCell(m, c, t, n.right.id) && n.right.id != n.id
    ensures n.left.Node? && n.right.Node? ==> n.left.id != n.right.id
  {
    Surroundings(m, root, c, p, t);
    if n == t.left {
      DescendLeft(m, root, c, p, t);
      Surroundings(m, root, InLeft(c, t.id, t.color, t.right), n.id, n);
    } else {
      DescendRight(m, root, c, p, t);
      Surroundings(m, root, InRight(c, t.id, t.color, t.left), n.id, n);
    }
    RootInIds(n.left);
    RootInIds(n.right);
  }

  ghost function Paint(t: Tree, color: Color): Tree {
    if t.Leaf? then Leaf else t.(color := color)
  }

  /** Rotate right: the left child `x` comes up with colour `xc`; the old root goes
      down with colour `yc`; the subtree that changes sides gets colour `bc`. */
  ghost function RotR(t: Tree, xc: Color, yc: Color, bc: Color): Tree
    requires t.Node? && t.left.Node?
  {
    var x := t.left;
    Node(x.left, x.id, xc, Node(Paint(x.right, bc), t.id, yc, t.right))
  }

  ghost function RotL(t: Tree, xc: Color, yc: Color, bc: Color): Tree
    requires t.Node? && t.right.Node?
  {
    var x := t.right;
    Node(Node(t.left, t.id, yc, Paint(x.left, bc)), x.id, xc, x.right)
  }

  lemma {:induction false} RotRInOrder(t: Tree, xc: Color, yc: Color, bc: Color)
    requires t.Node? && t.left.Node?
    ensures InOrder(RotR(t, xc, yc, bc)) == InOrder(t)
  {
    var x := t.left;
    var b := Paint(x.right, bc);
    assert InOrder(b) == InOrder(x.right);
    RegroupLeft(InOrder(x.left), [x.id], InOrder(b), [t.id], InOrder(t.right));
    assert InOrder(Node(b, t.id, yc, t.right)) == InOrder(b) + [t.id] + InOrder(t.right);
    assert InOrder(x) == InOrder(x.left) + [x.id] + InOrder(x.right);
  }

  lemma {:induction false} RotLInOrder(t: Tree, xc: Color, yc: Color, bc: Color)
    requires t.Node? && t.right.Node?
    ensures InOrder(RotL(t, xc, yc, bc)) == InOrder(t)
  {
    var x := t.right;
    var b := Paint(x.left, bc);
    assert InOrder(b) == InOrder(x.left);
    RegroupLeft(InOrder(t.left), [t.id], InOrder(b), [x.id], InOrder(x.right));
    assert InOrder(Node(t.left, t.id, yc, b)) == InOrder(t.left) + [t.id] + InOrder(b);
    assert InOrder(x) == InOrder(x.left) + [x.id] + InOrder(x.right);
  }

  /** `Repaint` for a subtree that may be empty. */
  lemma {:induction false} RepaintAny(m: Mem, m': Mem, parent: Ptr, parent': Ptr, t: Tree, color': Color)
    requires Repr(m, RootOf(t), parent, t) && Distinct(t)
    requires SameOn(m, m', Ids(t) - {RootOf(t)})
    requires t.Node? ==> t.id in m && t.id in m' && m'[t.id] == m[t.id].(parent := parent', color := color')
    ensures Repr(m', RootOf(t), parent', Paint(t, color'))
  {
    if t.Node? {
      Repaint(m, m', t.id, parent, parent', t, color');
    }
  }

  lemma {:induction false} RotateRightLayout(m: Mem, m': Mem, root: Ptr, root': Ptr, c: Ctx, t: Tree,
                                             xc: Color, yc: Color, bc: Color)
    requires t.Node? && t.left.Node? && Layout(m, root, c, t.id, t)
    requires t.id in m && t.left.id in m
    requires OnlyChanged(m, m', {RootOf(t.left.right), t.left.id, t.id, ParentOf(c)})
    requires Redirected(m, m', root, root', ParentOf(c), t.id, t.left.id)
    requires m'[t.left.id] == Cell(RootOf(t.left.left), t.id, ParentOf(c), xc)
    requires m'[t.id] == Cell(RootOf(t.left.right), RootOf(t.right), t.left.id, yc)
    requires var b := t.left.right;
      b.Node? ==> b.id in m && m'[b.id] == m[b.id].(parent := t.id, color := bc)
    ensures Layout(m', root', c, t.left.id, RotR(t, xc, yc, bc))
  {
    var x, k := t.left, InLeft(c, t.id, t.color, t.right);
    Open(m, t.id, ParentOf(c), t);
    DescendLeft(m, root, c, t.id, t);
    Apart(k, x);
    Surroundings(m, root, k, x.id, x);
    RootInIds(x.right);
    Open(m, x.id, t.id, x);
    RotRInOrder(t, xc, yc, bc);
    SeparateSameWalk(c, t, c, RotR(t, xc, yc, bc));
    assert ReprCtx(m', root', c, x.id) by {
      MoveHole(m, m', root, root', c, t.id, x.id);
    }
    assert Repr(m', RootOf(t.right), t.id, t.right) by {
      FrameTree(m, m', RootOf(t.right), t.id, t.right);
    }
    assert Repr(m', RootOf(x.left), x.id, x.left) by {
      FrameTree(m, m', RootOf(x.left), x.id, x.left);
    }
    assert Repr(m', RootOf(x.right), t.id, Paint(x.right, bc)) by {
      RepaintAny(m, m', x.id, t.id, x.right, bc);
    }
    MakeNode(m', t.id, x.id, Paint(x.right, bc), yc, t.right);
    MakeNode(m', x.id, ParentOf(c), x.left, xc, Node(Paint(x.right, bc), t.id, yc, t.right));
  }

  lemma {:induction false} RotateLeftLayout(m: Mem, m': Mem, root: Ptr, root': Ptr, c: Ctx, t: Tree,
                                            xc: Color, yc: Color, bc: Color)
    requires t.Node? && t.right.Node? && Layout(m, root, c, t.id, t)
    requires t.id in m && t.right.id in m
    requires OnlyChanged(m, m', {RootOf(t.right.left), t.right.id, t.id, ParentOf(c)})
    requires Redirected(m, m', root, root', ParentOf(c), t.id, t.right.id)
    requires m'[t.right.id] == Cell(t.id, RootOf(t.right.right), ParentOf(c), xc)
    requires m'[t.id] == Cell(RootOf(t.left), RootOf(t.right.left), t.right.id, yc)
    requires var b := t.right.left;
      b.Node? ==> b.id in m && m'[b.id] == m[b.id].(parent := t.id, color := bc)
    ensures Layout(m', root', c, t.right.id, RotL(t, xc, yc, bc))
  {
    var x, k := t.right, InRight(c, t.id, t.color, t.left);
    Open(m, t.id, ParentOf(c), t);
    DescendRight(m, root, c, t.id, t);
    Apart(k, x);
    Surroundings(m, root, k, x.id, x);
    RootInIds(x.left);
    Open(m, x.id, t.id, x);
    RotLInOrder(t, xc, yc, bc);
    SeparateSameWalk(c, t, c, RotL(t, xc, yc, bc));
    assert ReprCtx(m', root', c, x.id) by {
      MoveHole(m, m', root, root', c, t.id, x.id);
    }
    assert Repr(m', RootOf(t.left), t.id, t.left) by {
      FrameTree(m, m', RootOf(t.left), t.id, t.left);
    }
    assert Repr(m', RootOf(x.right), x.id, x.right) by {
      FrameTree(m, m', RootOf(x.right), x.id, x.right);
    }
    assert Repr(m', RootOf(x.left), t.id, Paint(x.left, bc)) by {
      RepaintAny(m, m', x.id, t.id, x.left, bc);
    }
    MakeNode(m', t.id, x.id, t.left, yc, Paint(x.left, bc));
    MakeNode(m', x.id, ParentOf(c), Node(t.left, t.id, yc, Paint(x.left, bc)), xc, x.right);
  }
}
