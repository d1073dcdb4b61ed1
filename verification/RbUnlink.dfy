/** Taking a node with two children out of a tree: its in-order successor is cut out
    of the right subtree and put in the node's place. */
module RbUnlink {
  import opened RbShape
  import opened RbStore
  import opened RbFixup

  /** A context that only leads down to the left. */
  ghost predicate LeftSpine(d: Ctx) {
    d.Top? || (d.InLeft? && LeftSpine(d.up))
  }

  /** The context `d` hung below the hole of `base`. */
  ghost function Graft(d: Ctx, base: Ctx): Ctx
    decreases d
  {
    if d.Top? then base else d.(up := Graft(d.up, base))
  }

  /** The first node on a non-empty spine. */
  ghost function SpineTop(d: Ctx): Ptr
    requires !d.Top?
    decreases d
  {
    if d.up.Top? then d.id else SpineTop(d.up)
  }

  lemma {:induction false} GraftPlug(d: Ctx, base: Ctx, t: Tree)
    ensures Plug(Graft(d, base), t) == Plug(base, Plug(d, t))
    decreases d
  {
    if !d.Top? {
      GraftPlug(d.up, base, Attach(d, t));
      assert Attach(Graft(d, base), t) == Attach(d, t);
    }
  }

  lemma {:induction false} GraftWalk(d: Ctx, base: Ctx)
    requires LeftSpine(d)
    ensures Before(Graft(d, base)) == Before(base) && Before(d) == []
    ensures After(Graft(d, base)) == After(d) + After(base)
    decreases d
  {
    if !d.Top? {
      GraftWalk(d.up, base);
      assert [d.id] + InOrder(d.sib) + (After(d.up) + After(base)) ==
        [d.id] + InOrder(d.sib) + After(d.up) + After(base);
    }
  }

  lemma {:induction false} GraftIds(d: Ctx, base: Ctx)
    ensures CtxIds(Graft(d, base)) == CtxIds(d) + CtxIds(base)
    decreases d
  {
    if !d.Top? {
      GraftIds(d.up, base);
    }
  }

  lemma {:induction false} GraftDistinct(d: Ctx, base: Ctx)
    requires DistinctCtx(Graft(d, base))
    ensures DistinctCtx(d) && DistinctCtx(base) && CtxIds(d) !! CtxIds(base)
    decreases d
  {
    if !d.Top? {
      GraftDistinct(d.up, base);
      GraftIds(d.up, base);
    }
  }

  /** Which node sits at the base does not matter for the red-black invariants. */
  lemma {:induction false} GraftRb(d: Ctx, base: Ctx, base': Ctx, h: nat)
    requires base.InRight? && base'.InRight? && base' == base.(id := base'.id)
    requires RbCtx(Graft(d, base), h)
    ensures RbCtx(Graft(d, base'), h)
    decreases d
  {
    if !d.Top? {
      GraftRb(d.up, base, base', if d.color == Black then h + 1 else h);
    }
  }

  lemma {:induction false} SpineTopIn(d: Ctx)
    requires !d.Top? && DistinctCtx(d)
    ensures SpineTop(d) in CtxIds(d) && SpineTop(d) !in Ids(d.sib)
    decreases d
  {
    if !d.up.Top? {
      SpineTopIn(d.up);
    }
  }

  /** A spine in memory after its hole and the parent of its first node changed. */
  ghost predicate SpineCells(m: Mem, m': Mem, d: Ctx, hole': Ptr, parent': Ptr)
    requires !d.Top?
  {
    forall q :: q in CtxIds(d) && q in m ==>
      (&& q in m'
       && m'[q] == m[q].(left := if q == d.id then hole' else m[q].left,
                         parent := if q == SpineTop(d) then parent' else m[q].parent))
  }

  lemma {:induction false} SpineMoved(m: Mem, m': Mem, root: Ptr, root': Ptr, d: Ctx, base: Ctx, base': Ctx, hole: Ptr,
                                      hole': Ptr)
    requires LeftSpine(d) && !d.Top? && DistinctCtx(d)
    requires ReprCtx(m, root, Graft(d, base), hole)
    requires ReprCtx(m', root', base', SpineTop(d))
    requires SpineCells(m, m', d, hole', ParentOf(base'))
    ensures ReprCtx(m', root', Graft(d, base'), hole')
    decreases d
  {
    SpineTopIn(d);
    assert d.id in CtxIds(d);
    OpenCtx(m, root, Graft(d, base), hole);
    FrameTree(m, m', m[d.id].right, d.id, d.sib);
    if !d.up.Top? {
      SpineTopIn(d.up);
      assert CtxIds(d.up) <= CtxIds(d);
      OpenCtx(m, root, Graft(d.up, base), d.id);
      assert d.up.id in CtxIds(d.up);
      SpineMoved(m, m', root, root', d.up, base, base', d.id, d.id);
    }
  }

  lemma {:induction false} NoDupsWithout(a: seq<Ptr>, x: Ptr, b: seq<Ptr>)
    requires NoDups(a + [x] + b)
    ensures NoDups(a + b) && x !in a + b
  {
    NoDupsAppend(a + [x], b);
    NoDupsAppend(a, [x]);
    NoDupsAppend(a, b);
  }

  /** Cutting out one node of the walk keeps everything separate. */
  lemma {:induction false} SeparateWithout(c: Ctx, t: Tree, c': Ctx, t': Tree, a: seq<Ptr>, x: Ptr, b: seq<Ptr>)
    requires Separate(c, t) && Walk(c, t) == a + [x] + b && Walk(c', t') == a + b
    ensures Separate(c', t') && x !in a + b
  {
    SeparatePlug(c, t);
    SeparatePlug(c', t');
    WalkPlug(c, t);
    WalkPlug(c', t');
    DistinctIffNoDups(Plug(c, t));
    DistinctIffNoDups(Plug(c', t'));
    NoDupsWithout(a, x, b);
    assert forall y :: y in a + b ==> y in a + [x] + b;
  }

  // ---------- the successor in place of the node ----------

  /** `t` has two children and its in-order successor is `s`, below the spine `d`. */
  ghost predicate HasSuccessor(t: Tree, d: Ctx, s: Tree) {
    && t.Node? && t.left.Node? && LeftSpine(d) && s.Node? && s.left.Leaf?
    && t.right == Plug(d, s)
  }

  /** Where the successor's right child hangs after the swap. */
  ghost function SwappedCtx(c: Ctx, t: Tree, d: Ctx, s: Tree): Ctx
    requires HasSuccessor(t, d, s)
  {
    Graft(d, InRight(c, s.id, t.color, t.left))
  }

  ghost function OldCtx(c: Ctx, t: Tree, d: Ctx): Ctx
    requires t.Node?
  {
    Graft(d, InRight(c, t.id, t.color, t.left))
  }

  /** The walk loses exactly the node. */
  lemma {:induction false} SwapWalk(c: Ctx, t: Tree, d: Ctx, s: Tree)
    requires HasSuccessor(t, d, s)
    ensures var a := Before(c) + InOrder(t.left);
      var b := [s.id] + InOrder(s.right) + After(d) + After(c);
      && Walk(c, t) == a + [t.id] + b
      && Walk(SwappedCtx(c, t, d, s), Paint(s.right, Black)) == a + b
      && Walk(OldCtx(c, t, d), s) == a + [t.id] + b
  {
    GraftWalk(d, InRight(c, t.id, t.color, t.left));
    GraftWalk(d, InRight(c, s.id, t.color, t.left));
    WalkPlug(d, s);
    assert InOrder(s.left) == [];
    RegroupSwap(Before(c), InOrder(t.left), [t.id], [s.id], InOrder(s.right), After(d), After(c));
    assert InOrder(s) == [] + [s.id] + InOrder(s.right);
    assert InOrder(Paint(s.right, Black)) == InOrder(s.right);
  }

  lemma {:induction false} RegroupSwap(p: seq<Ptr>, l: seq<Ptr>, n: seq<Ptr>, x: seq<Ptr>, r: seq<Ptr>, e: seq<Ptr>,
                                       f: seq<Ptr>)
    ensures var s := [] + x + r;
      && p + (l + n + ([] + s + e)) + f == (p + l) + n + (x + r + e + f)
      && (p + l + x) + r + (e + f) == (p + l) + (x + r + e + f)
      && (p + l + n) + s + (e + f) == (p + l) + n + (x + r + e + f)
  {
    assert [] + x + r == x + r;
  }

  lemma {:induction false} SwapSeparate(c: Ctx, t: Tree, d: Ctx, s: Tree)
    requires HasSuccessor(t, d, s) && Separate(c, t)
    ensures Separate(OldCtx(c, t, d), s)
    ensures Separate(SwappedCtx(c, t, d, s), Paint(s.right, Black))
  {
    SwapWalk(c, t, d, s);
    var a := Before(c) + InOrder(t.left);
    var b := [s.id] + InOrder(s.right) + After(d) + After(c);
    SeparateSameWalk(c, t, OldCtx(c, t, d), s);
    SeparateWithout(c, t, SwappedCtx(c, t, d, s), Paint(s.right, Black), a, t.id, b);
  }

  /** What the swap keeps apart. */
  lemma {:induction false} SwapApart(c: Ctx, t: Tree, d: Ctx, s: Tree)
    requires HasSuccessor(t, d, s) && Separate(OldCtx(c, t, d), s)
    ensures DistinctCtx(d) && DistinctCtx(c) && Distinct(t.left) && Distinct(s.right)
    ensures CtxIds(d) !! CtxIds(c) !! Ids(t.left) !! Ids(s.right)
    ensures var x := {s.id, t.id}; x !! CtxIds(d) && x !! CtxIds(c) && x !! Ids(t.left) && x !! Ids(s.right)
    ensures s.id != t.id && NULL !in CtxIds(d) + Ids(t.left) + Ids(s.right) + {s.id, t.id}
    ensures !c.Top? ==> c.id in CtxIds(c) && c.id != NULL
  {
    var base := InRight(c, t.id, t.color, t.left);
    GraftDistinct(d, base);
    GraftIds(d, base);
    NullNotIn(t.left);
    NullNotIn(s);
    NullNotInCtx(d);
  }

  lemma {:induction false} NullNotInCtx(c: Ctx)
    requires DistinctCtx(c)
    ensures NULL !in CtxIds(c)
  {
    if !c.Top? {
      NullNotIn(c.sib);
      NullNotInCtx(c.up);
    }
  }

  /** The addresses that the swap rewrites. */
  ghost function SwapTouched(c: Ctx, t: Tree, d: Ctx, s: Tree): set<Ptr>
    requires HasSuccessor(t, d, s)
  {
    {s.id, t.left.id, RootOf(s.right), ParentOf(c)} + (if d.Top? then {} else {d.id, SpineTop(d)})
  }

  /** The store after the swap. */
  ghost predicate Swapped(m: Mem, m': Mem, root: Ptr, root': Ptr, c: Ctx, t: Tree, d: Ctx, s: Tree)
    requires HasSuccessor(t, d, s)
  {
    var b := s.right;
    && t.left.id in m && s.id in m
    && OnlyChanged(m, m', SwapTouched(c, t, d, s))
    && Redirected(m, m', root, root', ParentOf(c), t.id, s.id)
    && m'[s.id] == Cell(t.left.id, if d.Top? then RootOf(b) else SpineTop(d), ParentOf(c), t.color)
    && m'[t.left.id] == m[t.left.id].(parent := s.id)
    && (b.Node? ==> b.id in m && m'[b.id] == m[b.id].(parent := if d.Top? then s.id else d.id, color := Black))
    && (!d.Top? ==> SpineCells(m, m', d, RootOf(b), s.id))
  }

  lemma {:induction false} FocusSuccessor(m: Mem, root: Ptr, c: Ctx, t: Tree, d: Ctx, s: Tree)
    requires HasSuccessor(t, d, s) && Layout(m, root, OldCtx(c, t, d), s.id, s)
    ensures Layout(m, root, c, t.id, t) && t.id in m
    decreases d
  {
    if d.Top? {
      Climb(m, root, OldCtx(c, t, d), s.id, s);
    } else {
      FocusUp(m, root, d, InRight(c, t.id, t.color, t.left), s.id, s);
      Climb(m, root, InRight(c, t.id, t.color, t.left), RootOf(Plug(d, s)), Plug(d, s));
    }
    Open(m, t.id, ParentOf(c), t);
  }

  lemma {:induction false} FocusUp(m: Mem, root: Ptr, d: Ctx, base: Ctx, p: Ptr, t: Tree)
    requires Layout(m, root, Graft(d, base), p, t) && p == RootOf(t)
    ensures Layout(m, root, base, RootOf(Plug(d, t)), Plug(d, t))
    decreases d
  {
    if !d.Top? {
      Climb(m, root, Graft(d, base), p, t);
      assert Attach(Graft(d, base), t) == Attach(d, t);
      FocusUp(m, root, d.up, base, d.id, Attach(d, t));
    }
  }

  lemma {:induction false} SwapHole(m: Mem, m': Mem, root: Ptr, root': Ptr, c: Ctx, t: Tree, d: Ctx, s: Tree)
    requires HasSuccessor(t, d, s) && Layout(m, root, c, t.id, t) && Separate(OldCtx(c, t, d), s)
    requires Swapped(m, m', root, root', c, t, d, s)
    ensures ReprCtx(m', root', c, s.id)
  {
    SwapApart(c, t, d, s);
    TouchedOutside(c, t, d, s);
    if !c.Top? {
      OpenCtx(m, root, c, t.id);
      RootInIds(c.sib);
    }
    MoveHole(m, m', root, root', c, t.id, s.id);
  }

  lemma {:induction false} TouchedOutside(c: Ctx, t: Tree, d: Ctx, s: Tree)
    requires HasSuccessor(t, d, s) && Separate(OldCtx(c, t, d), s)
    ensures SwapTouched(c, t, d, s) * CtxIds(c) <= {ParentOf(c)}
    ensures SwapTouched(c, t, d, s) * Ids(t.left) <= {t.left.id}
    ensures SwapTouched(c, t, d, s) * Ids(s.right) <= {RootOf(s.right)}
  {
    SwapApart(c, t, d, s);
    NullNotInCtx(c);
    RootInIds(t.left);
    RootInIds(s.right);
    if !d.Top? {
      SpineTopIn(d);
      assert d.id in CtxIds(d);
    }
  }

  lemma {:induction false} SwapBase(m: Mem, m': Mem, root: Ptr, root': Ptr, c: Ctx, t: Tree, d: Ctx, s: Tree)
    requires HasSuccessor(t, d, s) && Layout(m, root, OldCtx(c, t, d), s.id, s)
    requires Swapped(m, m', root, root', c, t, d, s)
    ensures ReprCtx(m', root', InRight(c, s.id, t.color, t.left), if d.Top? then RootOf(s.right) else SpineTop(d))
  {
    FocusSuccessor(m, root, c, t, d, s);
    SwapHole(m, m', root, root', c, t, d, s);
    SwapApart(c, t, d, s);
    TouchedOutside(c, t, d, s);
    Open(m, t.id, ParentOf(c), t);
    Reparent(m, m', t.left.id, t.id, s.id, t.left);
  }

  lemma {:induction false} SwapLayout(m: Mem, m': Mem, root: Ptr, root': Ptr, c: Ctx, t: Tree, d: Ctx, s: Tree)
    requires HasSuccessor(t, d, s) && Layout(m, root, OldCtx(c, t, d), s.id, s) && Separate(c, t)
    requires Swapped(m, m', root, root', c, t, d, s)
    ensures Layout(m', root', SwappedCtx(c, t, d, s), RootOf(s.right), Paint(s.right, Black))
  {
    var b := s.right;
    SwapSeparate(c, t, d, s);
    SwapApart(c, t, d, s);
    SwapBase(m, m', root, root', c, t, d, s);
    TouchedOutside(c, t, d, s);
    if !d.Top? {
      SpineMoved(m, m', root, root', d, InRight(c, t.id, t.color, t.left), InRight(c, s.id, t.color, t.left), s.id,
      RootOf(b));
    }
    Open(m, s.id, ParentOf(OldCtx(c, t, d)), s);
    RepaintAny(m, m', s.id, if d.Top? then s.id else d.id, b, Black);
  }

  /** The value part of a focus that fits its context. */
  ghost predicate Fits(c: Ctx, t: Tree) {
    Rb(t) && RbCtx(c, BlackHeight(t)) && (IsBlack(t) || (!c.Top? && c.color == Black))
  }

  /** What `_hev_rbtree_erase` leaves: a valid tree, or one that is a black node short
      at the empty side of `rebalance`. */
  ghost predicate Unlinked(m: Mem, root: Ptr, c: Ctx, t: Tree, rebalance: Ptr) {
    && Layout(m, root, c, RootOf(t), t)
    && if rebalance == NULL then Fits(c, t) else t.Leaf? && Short(m, root, c, NULL, t) && rebalance == c.id
  }

  lemma {:induction false} SwapRb(c: Ctx, t: Tree, d: Ctx, s: Tree)
    requires HasSuccessor(t, d, s) && ValidRb(Plug(c, t))
    ensures var c', t' := SwappedCtx(c, t, d, s), Paint(s.right, Black);
      if s.right.Leaf? && s.color == Black then ShortValue(c', t') else Fits(c', t')
  {
    var base, base' := InRight(c, t.id, t.color, t.left), InRight(c, s.id, t.color, t.left);
    GraftPlug(d, base, s);
    assert Attach(base, t.right) == t;
    UnplugRb(OldCtx(c, t, d), s);
    GraftRb(d, base, base', BlackHeight(s));
    assert s.right.Node? ==> s.right.color == Red && s.color == Black;
  }

  /** A node without a left or without a right child is replaced by its only child. */
  lemma {:induction false} OnlyChildRb(c: Ctx, t: Tree, b: Tree)
    requires t.Node? && ValidRb(Plug(c, t))
    requires (t.left.Leaf? && b == t.right) || (t.right.Leaf? && b == t.left && b.Node?)
    ensures if b.Node? || t.color == Red then Fits(c, Paint(b, t.color))
            else if c.Top? then Fits(c, Leaf) else ShortValue(c, Leaf)
  {
    UnplugRb(c, t);
  }

  lemma {:induction false} OnlyChildWalk(c: Ctx, t: Tree, b: Tree)
    requires t.Node? && ((t.left.Leaf? && b == t.right) || (t.right.Leaf? && b == t.left))
    ensures var x, y := Before(c) + InOrder(t.left), InOrder(t.right) + After(c);
      Walk(c, t) == x + [t.id] + y && Walk(c, Paint(b, t.color)) == x + y
  {
    var x, y := Before(c) + InOrder(t.left), InOrder(t.right) + After(c);
    assert InOrder(Paint(b, t.color)) == InOrder(b);
    if t.left.Leaf? {
      assert Before(c) + InOrder(b) + After(c) == x + y;
    } else {
      assert Before(c) + InOrder(b) + After(c) == x + y;
    }
  }

  lemma {:induction false} OnlyChildLayout(m: Mem, m': Mem, root: Ptr, root': Ptr, c: Ctx, t: Tree, b: Tree)
    requires t.Node? && Layout(m, root, c, t.id, t)
    requires (t.left.Leaf? && b == t.right) || (t.right.Leaf? && b == t.left)
    requires OnlyChanged(m, m', {RootOf(b), ParentOf(c)})
    requires Redirected(m, m', root, root', ParentOf(c), t.id, RootOf(b))
    requires b.Node? ==> b.id in m && m'[b.id] == m[b.id].(parent := ParentOf(c), color := t.color)
    ensures Layout(m', root', c, RootOf(b), Paint(b, t.color))
  {
    Open(m, t.id, ParentOf(c), t);
    OnlyChildWalk(c, t, b);
    SeparateWithout(c, t, c, Paint(b, t.color), Before(c) + InOrder(t.left), t.id, InOrder(t.right) + After(c));
    NullNotInCtx(c);
    NullNotIn(t);
    RootInIds(b);
    if !c.Top? {
      OpenCtx(m, root, c, t.id);
      RootInIds(c.sib);
    }
    MoveHole(m, m', root, root', c, t.id, RootOf(b));
    RepaintAny(m, m', t.id, ParentOf(c), b, t.color);
  }
}
