/** Red-black trees as values: shapes, colours, in-order sequences and the
    one-hole contexts ("zippers") that the fix-up loops climb. */
module RbShape {
  import opened Basics

  /** A node address. Address 0 plays the role of the C null pointer. */
  type Ptr = nat

  const NULL: Ptr := 0

  datatype Color = Red | Black

  datatype Tree = Leaf | Node(left: Tree, id: Ptr, color: Color, right: Tree)

  /** A tree with one subtree cut out; `up` leads to the root. */
  datatype Ctx =
    | Top
    | InLeft(up: Ctx, id: Ptr, color: Color, sib: Tree)
    | InRight(up: Ctx, id: Ptr, color: Color, sib: Tree)

  function RootOf(t: Tree): Ptr {
    if t.Leaf? then NULL else t.id
  }

  function ParentOf(c: Ctx): Ptr {
    if c.Top? then NULL else c.id
  }

  predicate IsBlack(t: Tree) {
    t.Node? ==> t.color == Black
  }

  ghost function Attach(c: Ctx, t: Tree): Tree
    requires !c.Top?
  {
    if c.InLeft? then Node(t, c.id, c.color, c.sib) else Node(c.sib, c.id, c.color, t)
  }

  ghost function Plug(c: Ctx, t: Tree): Tree
    decreases c
  {
    if c.Top? then t else Plug(c.up, Attach(c, t))
  }

  // ---------- contents ----------

  ghost function Ids(t: Tree): set<Ptr> {
    if t.Leaf? then {} else Ids(t.left) + {t.id} + Ids(t.right)
  }

  ghost function CtxIds(c: Ctx): set<Ptr> {
    if c.Top? then {} else CtxIds(c.up) + {c.id} + Ids(c.sib)
  }

  ghost function InOrder(t: Tree): seq<Ptr> {
    if t.Leaf? then [] else InOrder(t.left) + [t.id] + InOrder(t.right)
  }

  /** Nodes before, respectively after, the hole in the in-order walk. */
  ghost function Before(c: Ctx): seq<Ptr> {
    match c
    case Top => []
    case InLeft(up, _, _, _) => Before(up)
    case InRight(up, id, _, sib) => Before(up) + InOrder(sib) + [id]
  }

  ghost function After(c: Ctx): seq<Ptr> {
    match c
    case Top => []
    case InLeft(up, id, _, sib) => [id] + InOrder(sib) + After(up)
    case InRight(up, _, _, _) => After(up)
  }

  ghost function Walk(c: Ctx, t: Tree): seq<Ptr> {
    Before(c) + InOrder(t) + After(c)
  }

  ghost predicate Distinct(t: Tree) {
    t.Node? ==>
      && t.id != NULL
      && Distinct(t.left) && Distinct(t.right)
      && t.id !in Ids(t.left) && t.id !in Ids(t.right)
      && Ids(t.left) !! Ids(t.right)
  }

  ghost predicate DistinctCtx(c: Ctx) {
    !c.Top? ==>
      && c.id != NULL
      && Distinct(c.sib) && DistinctCtx(c.up)
      && c.id !in Ids(c.sib) && c.id !in CtxIds(c.up)
      && Ids(c.sib) !! CtxIds(c.up)
  }

  // Regrouping of concatenations, stated once so that the walks need not unfold them.

  lemma {:induction false} RegroupLeft(a: seq<Ptr>, b: seq<Ptr>, c: seq<Ptr>, d: seq<Ptr>, e: seq<Ptr>)
    ensures a + b + (c + d + e) == (a + b + c) + d + e
  {
  }

  lemma {:induction false} RegroupMiddle(a: seq<Ptr>, b: seq<Ptr>, c: seq<Ptr>, d: seq<Ptr>, e: seq<Ptr>)
    ensures a + (b + c + d) + e == a + b + (c + d + e)
    ensures a + (b + c + d) + e == (a + b + c) + d + e
  {
  }

  lemma {:induction false} ClimbWalk(c: Ctx, t: Tree)
    requires !c.Top?
    ensures Walk(c.up, Attach(c, t)) == Walk(c, t)
  {
    if c.InLeft? {
      RegroupMiddle(Before(c.up), InOrder(t), [c.id], InOrder(c.sib), After(c.up));
    } else {
      RegroupMiddle(Before(c.up), InOrder(c.sib), [c.id], InOrder(t), After(c.up));
    }
  }

  lemma {:induction false} WalkPlug(c: Ctx, t: Tree)
    ensures InOrder(Plug(c, t)) == Walk(c, t)
    decreases c
  {
    if c.Top? {
    } else {
      WalkPlug(c.up, Attach(c, t));
      ClimbWalk(c, t);
    }
  }

  lemma {:induction false} PlugIds(c: Ctx, t: Tree)
    ensures Ids(Plug(c, t)) == CtxIds(c) + Ids(t)
    decreases c
  {
    if !c.Top? {
      PlugIds(c.up, Attach(c, t));
    }
  }

  // ---------- red-black invariants ----------

  /** Number of black nodes on the leftmost path; on an `Rb` tree, on every path. */
  ghost function BlackHeight(t: Tree): nat {
    if t.Leaf? then 0 else BlackHeight(t.left) + (if t.color == Black then 1 else 0)
  }

  /** Equal black height on every path and no red node with a red child. */
  ghost predicate Rb(t: Tree) {
    t.Node? ==>
      && Rb(t.left) && Rb(t.right)
      && BlackHeight(t.left) == BlackHeight(t.right)
      && (t.color == Red ==> IsBlack(t.left) && IsBlack(t.right))
  }

  ghost predicate ValidRb(t: Tree) {
    IsBlack(t) && Rb(t)
  }

  /** The context becomes a valid tree once the hole holds a tree of black height `h`
      whose root does not clash with a red parent. */
  ghost predicate RbCtx(c: Ctx, h: nat) {
    !c.Top? ==>
      && Rb(c.sib) && BlackHeight(c.sib) == h
      && RbCtx(c.up, if c.color == Black then h + 1 else h)
      && (c.color == Red ==> IsBlack(c.sib) && !c.up.Top? && c.up.color == Black)
  }

  lemma {:induction false} PlugRb(c: Ctx, t: Tree)
    requires Rb(t) && RbCtx(c, BlackHeight(t))
    requires IsBlack(t) || (!c.Top? && c.color == Black)
    ensures ValidRb(Plug(c, t))
    decreases c
  {
    if !c.Top? {
      PlugRb(c.up, Attach(c, t));
    }
  }

  /** Splitting a valid tree at a context gives a valid part and a valid context. */
  lemma {:induction false} UnplugRb(c: Ctx, t: Tree)
    requires ValidRb(Plug(c, t))
    ensures Rb(t) && RbCtx(c, BlackHeight(t))
    ensures IsBlack(t) || (!c.Top? && c.color == Black)
    decreases c
  {
    if !c.Top? {
      UnplugRb(c.up, Attach(c, t));
    }
  }

  // ---------- height bound ----------

  ghost function Height(t: Tree): nat {
    if t.Leaf? then 0
    else 1 + (if Height(t.left) >= Height(t.right) then Height(t.left) else Height(t.right))
  }

  ghost function Depth(c: Ctx): nat {
    if c.Top? then 0 else 1 + Depth(c.up)
  }

  lemma {:induction false} HeightVsBlack(t: Tree)
    requires Rb(t)
    ensures Height(t) <= 2 * BlackHeight(t) + (if IsBlack(t) then 0 else 1)
  {
    if t.Node? {
      HeightVsBlack(t.left);
      HeightVsBlack(t.right);
    }
  }

  lemma {:induction false} BlackVsSize(t: Tree)
    requires Rb(t)
    ensures Pow2(BlackHeight(t)) <= |InOrder(t)| + 1
  {
    if t.Node? {
      BlackVsSize(t.left);
      BlackVsSize(t.right);
    }
  }

  lemma {:induction false} Pow2Monotone(a: nat, b: nat)
    requires a <= b
    ensures Pow2(a) <= Pow2(b)
    decreases b
  {
    if a < b {
      Pow2Monotone(a, b - 1);
    }
  }

  /** A valid tree of n nodes has height at most 2*log2(n + 1). */
  lemma {:induction false} HeightBound(t: Tree)
    requires ValidRb(t)
    ensures Pow2((Height(t) + 1) / 2) <= |InOrder(t)| + 1
  {
    HeightVsBlack(t);
    BlackVsSize(t);
    Pow2Monotone((Height(t) + 1) / 2, BlackHeight(t));
  }

  lemma {:induction false} DepthPlug(c: Ctx, t: Tree)
    ensures Height(Plug(c, t)) >= Depth(c) + Height(t)
    decreases c
  {
    if !c.Top? {
      DepthPlug(c.up, Attach(c, t));
    }
  }
}
