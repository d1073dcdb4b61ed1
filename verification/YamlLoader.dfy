/** The loader of loader.c: builds the node table from a document's events with an
    explicit stack. */
module YamlLoader {
  import opened Basics
  import opened YamlNodes

  datatype AliasData = AliasData(anchor: string, index: nat)

  type Aliases = seq<AliasData>

  /** The first entry with the given anchor, or |al|. */
  function FindAlias(al: Aliases, anchor: string): (k: nat)
    ensures k <= |al|
    ensures k < |al| ==> al[k].anchor == anchor
    ensures forall i :: 0 <= i < k ==> al[i].anchor != anchor
  {
    if al == [] then 0 else if al[0].anchor == anchor then 0 else 1 + FindAlias(al[1..], anchor)
  }

  datatype State = State(nodes: Table, aliases: Aliases, ctx: seq<nat>)

  /** `Broken` is the failure of one of the loader's own assertions. */
  datatype Outcome = Ok(st: State) | Refused | Broken

  /** `yaml_parser_register_anchor`. */
  function Register(al: Aliases, index: nat, anchor: Option<string>): Option<Aliases> {
    if anchor.None? then Some(al)
    else if FindAlias(al, anchor.value) < |al| then None
    else Some(al + [AliasData(anchor.value, index)])
  }

  /** The parent's side of `yaml_parser_load_node_add`. */
  function AddKid(n: Node, index: nat): Node {
    match n
    case ScalarNode(_, _) => n
    case SequenceNode(_, items) => n.(items := items + [index])
    case MappingNode(_, pairs) =>
      var k := |pairs| - 1;
      if k >= 0 && pairs[k].key != 0 && pairs[k].val == 0 then n.(pairs := pairs[k := pairs[k].(val := index)])
      else n.(pairs := pairs + [Pair(index, 0)])
  }

  /** `yaml_parser_load_node_add`. */
  function NodeAdd(st: State, index: nat): Outcome {
    if st.ctx == [] then Ok(st)
    else
      var p := st.ctx[|st.ctx| - 1];
      if !(1 <= p <= |st.nodes|) || st.nodes[p - 1].ScalarNode? then Broken
      else Ok(st.(nodes := st.nodes[p - 1 := AddKid(st.nodes[p - 1], index)]))
  }

  /** Pushes a node, registers its anchor and adds it to its parent; collections are
      then open for their children. */
  function Enter(st: State, n: Node, anchor: Option<string>): Outcome {
    var index := |st.nodes| + 1;
    var al := Register(st.aliases, index, anchor);
    if al.None? then Refused
    else
      var r := NodeAdd(st.(nodes := st.nodes + [n], aliases := al.value), index);
      if r.Ok? && !n.ScalarNode? then Ok(r.st.(ctx := r.st.ctx + [index])) else r
  }

  /** The end of a collection of the given kind. */
  function Leave(st: State, mapping: bool): Outcome {
    var d := |st.ctx|;
    if d == 0 || !(1 <= st.ctx[d - 1] <= |st.nodes|) then Broken
    else
      var n := st.nodes[st.ctx[d - 1] - 1];
      if (mapping && n.MappingNode?) || (!mapping && n.SequenceNode?) then Ok(st.(ctx := st.ctx[..d - 1])) else Broken
  }

  function LoadEvent(st: State, e: Event): Outcome {
    match e
    case Alias(a) =>
      var k := FindAlias(st.aliases, a);
      if k < |st.aliases| then NodeAdd(st, st.aliases[k].index) else Refused
    case Scalar(a, tag, v) => Enter(st, ScalarNode(Defaulted(tag, SCALAR_TAG), v), a)
    case SequenceStart(a, tag) => Enter(st, SequenceNode(Defaulted(tag, SEQUENCE_TAG), []), a)
    case SequenceEnd => Leave(st, false)
    case MappingStart(a, tag) => Enter(st, MappingNode(Defaulted(tag, MAPPING_TAG), []), a)
    case MappingEnd => Leave(st, true)
    case DocumentEnd => Ok(st)
  }

  /** `yaml_parser_load_nodes` on the events up to the end of the document. */
  function Load(st: State, es: seq<Event>): Outcome
    decreases |es|
  {
    if es == [] then Ok(st)
    else
      var r := LoadEvent(st, es[0]);
      if r.Ok? then Load(r.st, es[1..]) else r
  }

  const EMPTY := State([], [], [])

  lemma {:induction false} LoadAppend(st: State, a: seq<Event>, b: seq<Event>)
    ensures Load(st, a + b) == var r := Load(st, a); if r.Ok? then Load(r.st, b) else r
    decreases |a|
  {
    if a == [] {
      assert a + b == b;
    } else {
      assert (a + b)[1..] == a[1..] + b && (a + b)[0] == a[0];
      var r := LoadEvent(st, a[0]);
      if r.Ok? { LoadAppend(r.st, a[1..], b); }
    }
  }

  lemma {:induction false} LoadOne(st: State, e: Event)
    ensures Load(st, [e]) == LoadEvent(st, e)
  {
  }

  // ---------- the same by recursive descent ----------

  /** The nodes of a subtree, its root's index, and the anchors known after it. */
  datatype Placed = Placed(nodes: Table, id: nat, al: Aliases)

  datatype PlacedAll = PlacedAll(nodes: Table, ids: seq<nat>, al: Aliases)

  /** Builds the nodes of `t` behind `base` nodes that are already there. */
  function Place(t: Tree, al: Aliases, base: nat): Option<Placed>
    requires Even(t)
    decreases t, 1
  {
    match t
    case AliasTree(a) =>
      var k := FindAlias(al, a);
      if k < |al| then Some(Placed([], al[k].index, al)) else None
    case ScalarTree(a, tag, v) =>
      var al1 := Register(al, base + 1, a);
      if al1.None? then None else Some(Placed([ScalarNode(Defaulted(tag, SCALAR_TAG), v)], base + 1, al1.value))
    case SequenceTree(a, tag, kids) =>
      var al1 := Register(al, base + 1, a);
      if al1.None? then None
      else
        var r := PlaceAll(kids, al1.value, base + 1);
        if r.None? then None
        else Some(Placed([SequenceNode(Defaulted(tag, SEQUENCE_TAG), r.value.ids)] + r.value.nodes, base + 1,
          r.value.al))
    case MappingTree(a, tag, kids) =>
      var al1 := Register(al, base + 1, a);
      if al1.None? then None
      else
        var r := PlaceAll(kids, al1.value, base + 1);
        if r.None? then None
        else Some(Placed([MappingNode(Defaulted(tag, MAPPING_TAG), PairUp(r.value.ids))] + r.value.nodes, base + 1,
          r.value.al))
  }

  function PlaceAll(ts: seq<Tree>, al: Aliases, base: nat): (r: Option<PlacedAll>)
    requires EvenAll(ts)
    ensures r.Some? ==> |r.value.ids| == |ts|
    decreases ts, 0
  {
    if ts == [] then Some(PlacedAll([], [], al))
    else
      var a := Place(ts[0], al, base);
      if a.None? then None
      else
        var b := PlaceAll(ts[1..], a.value.al, base + |a.value.nodes|);
        if b.None? then None
        else Some(PlacedAll(a.value.nodes + b.value.nodes, [a.value.id] + b.value.ids, b.value.al))
  }

  /** Known anchors name nodes that are there. */
  ghost predicate Bound(al: Aliases, n: nat) {
    forall i :: 0 <= i < |al| ==> 1 <= al[i].index <= n
  }

  lemma {:induction false} PlaceBound(t: Tree, al: Aliases, base: nat)
    requires Even(t) && Bound(al, base)
    ensures var r := Place(t, al, base);
      r.Some? ==> var n := base + |r.value.nodes|; Bound(r.value.al, n) && 1 <= r.value.id <= n
    decreases t, 1
  {
    match t
    case SequenceTree(a, tag, kids) =>
      var al1 := Register(al, base + 1, a);
      if al1.Some? { PlaceAllBound(kids, al1.value, base + 1); }
    case MappingTree(a, tag, kids) =>
      var al1 := Register(al, base + 1, a);
      if al1.Some? { PlaceAllBound(kids, al1.value, base + 1); }
    case _ =>
  }

  lemma {:induction false} PlaceAllBound(ts: seq<Tree>, al: Aliases, base: nat)
    requires EvenAll(ts) && Bound(al, base)
    ensures var r := PlaceAll(ts, al, base);
      r.Some? ==> var n := base + |r.value.nodes|;
        Bound(r.value.al, n) && forall i :: 0 <= i < |r.value.ids| ==> 1 <= r.value.ids[i] <= n
    decreases ts, 0
  {
    if ts != [] {
      PlaceBound(ts[0], al, base);
      var a := Place(ts[0], al, base);
      if a.Some? { PlaceAllBound(ts[1..], a.value.al, base + |a.value.nodes|); }
    }
  }

  // ---------- the stack-driven loader does the same ----------

  function AddKids(n: Node, ids: seq<nat>): (r: Node)
    ensures (r.ScalarNode? <==> n.ScalarNode?) && (r.SequenceNode? <==> n.SequenceNode?)
    decreases |ids|
  {
    if ids == [] then n else AddKids(AddKid(n, ids[0]), ids[1..])
  }

  lemma {:induction false} AddKidsSequence(tag: string, items: seq<nat>, ids: seq<nat>)
    ensures AddKids(SequenceNode(tag, items), ids) == SequenceNode(tag, items + ids)
    decreases |ids|
  {
    if ids == [] {
      assert items + ids == items;
    } else {
      AddKidsSequence(tag, items + [ids[0]], ids[1..]);
      assert items + [ids[0]] + ids[1..] == items + ids;
    }
  }

  /** Children of a mapping are keys and values in turn. */
  lemma {:induction false} AddKidsMapping(tag: string, pairs: seq<Pair>, ids: seq<nat>)
    requires |ids| % 2 == 0 && forall i :: 0 <= i < |ids| ==> ids[i] >= 1
    requires pairs == [] || pairs[|pairs| - 1].val != 0
    ensures AddKids(MappingNode(tag, pairs), ids) == MappingNode(tag, pairs + PairUp(ids))
    decreases |ids|
  {
    hide AddKids, AddKid, PairUp;
    KidsEnd(MappingNode(tag, pairs), ids);
    if ids == [] {
      assert pairs + [] == pairs;
    } else {
      var full := pairs + [Pair(ids[0], ids[1])];
      TwoKids(MappingNode(tag, pairs), ids);
      KeyThenValue(tag, pairs, ids[0], ids[1]);
      AddKidsMapping(tag, full, ids[2..]);
      assert full + PairUp(ids[2..]) == pairs + ([Pair(ids[0], ids[1])] + PairUp(ids[2..]));
    }
  }

  lemma {:induction false} KidsEnd(n: Node, ids: seq<nat>)
    ensures ids == [] ==> AddKids(n, ids) == n && PairUp(ids) == []
  {
  }

  lemma {:induction false} TwoKids(n: Node, ids: seq<nat>)
    requires |ids| % 2 == 0 && ids != []
    ensures AddKids(n, ids) == AddKids(AddKid(AddKid(n, ids[0]), ids[1]), ids[2..])
    ensures PairUp(ids) == [Pair(ids[0], ids[1])] + PairUp(ids[2..])
  {
    hide AddKid;
    var m := AddKid(n, ids[0]);
    assert ids[1..][0] == ids[1] && ids[1..][1..] == ids[2..];
    assert AddKids(n, ids) == AddKids(m, ids[1..]);
  }

  lemma {:induction false} KeyThenValue(tag: string, pairs: seq<Pair>, key: nat, val: nat)
    requires key >= 1 && (pairs == [] || pairs[|pairs| - 1].val != 0)
    ensures AddKid(AddKid(MappingNode(tag, pairs), key), val) == MappingNode(tag, pairs + [Pair(key, val)])
  {
    var half := pairs + [Pair(key, 0)];
    assert AddKid(MappingNode(tag, pairs), key) == MappingNode(tag, half);
    assert half[|pairs| := Pair(key, val)] == pairs + [Pair(key, val)];
  }

  /** The stack's top is an open collection. */
  ghost predicate Open(st: State) {
    && Bound(st.aliases, |st.nodes|)
    && (st.ctx != [] ==> var p := st.ctx[|st.ctx| - 1]; 1 <= p <= |st.nodes| && !st.nodes[p - 1].ScalarNode?)
  }

  /** The table after the open collection got one more child. */
  function Grow(nodes: Table, ctx: seq<nat>, id: nat): (r: Table)
    ensures |r| == |nodes|
  {
    if ctx == [] then nodes else GrowAll(nodes, ctx[|ctx| - 1], [id])
  }

  /** The table after node `p` got more children. */
  function GrowAll(nodes: Table, p: nat, ids: seq<nat>): (r: Table)
    ensures |r| == |nodes|
  {
    if 1 <= p <= |nodes| then nodes[p - 1 := AddKids(nodes[p - 1], ids)] else nodes
  }

  /** Loading the events of a tree gives what recursive descent gives. */
  lemma {:induction false} LoadTree(st: State, t: Tree)
    requires Even(t) && Open(st)
    ensures var r := Place(t, st.aliases, |st.nodes|);
      Load(st, Events(t)) ==
      if r.None? then Refused
      else Ok(State(Grow(st.nodes, st.ctx, r.value.id) + r.value.nodes, r.value.al, st.ctx))
    decreases t, 1
  {
    hide Load, Grow, GrowAll, AddKid, AddKids, Bound;
    match t
    case AliasTree(a) =>
      LoadOne(st, Alias(a));
      var k := FindAlias(st.aliases, a);
      if k < |st.aliases| {
        var g := Grow(st.nodes, st.ctx, st.aliases[k].index);
        assert g + [] == g;
        NodeAddGrows(st, st.aliases[k].index);
      }
    case ScalarTree(a, tag, v) =>
      LoadOne(st, Scalar(a, tag, v));
      EnterGrows(st, ScalarNode(Defaulted(tag, SCALAR_TAG), v), a);
    case SequenceTree(a, tag, kids) =>
      LoadCollection(st, SequenceNode(Defaulted(tag, SEQUENCE_TAG), []), a, SequenceStart(a, tag), kids, SequenceEnd);
      var al := Register(st.aliases, |st.nodes| + 1, a);
      if al.Some? && PlaceAll(kids, al.value, |st.nodes| + 1).Some? {
        var ids := PlaceAll(kids, al.value, |st.nodes| + 1).value.ids;
        AddKidsSequence(Defaulted(tag, SEQUENCE_TAG), [], ids);
        assert [] + ids == ids;
      }
    case MappingTree(a, tag, kids) =>
      LoadCollection(st, MappingNode(Defaulted(tag, MAPPING_TAG), []), a, MappingStart(a, tag), kids, MappingEnd);
      var al := Register(st.aliases, |st.nodes| + 1, a);
      if al.Some? && PlaceAll(kids, al.value, |st.nodes| + 1).Some? {
        var ids := PlaceAll(kids, al.value, |st.nodes| + 1).value.ids;
        RegisterBound(st.aliases, |st.nodes|, a);
        PlaceAllBound(kids, al.value, |st.nodes| + 1);
        AddKidsMapping(Defaulted(tag, MAPPING_TAG), [], ids);
        assert [] + PairUp(ids) == PairUp(ids);
      }
  }

  lemma {:induction false} NodeAddGrows(st: State, id: nat)
    requires Open(st)
    ensures NodeAdd(st, id) == Ok(st.(nodes := Grow(st.nodes, st.ctx, id)))
  {
    if st.ctx != [] {
      var n := st.nodes[st.ctx[|st.ctx| - 1] - 1];
      assert AddKids(n, [id]) == AddKid(n, id);
    }
  }

  lemma {:induction false} EnterGrows(st: State, n: Node, a: Option<string>)
    requires Open(st)
    ensures var id := |st.nodes| + 1;
      var al := Register(st.aliases, id, a);
      Enter(st, n, a) ==
      if al.None? then Refused
      else Ok(State(Grow(st.nodes, st.ctx, id) + [n], al.value, if n.ScalarNode? then st.ctx else st.ctx + [id]))
  {
    if st.ctx != [] {
      var p := st.ctx[|st.ctx| - 1];
      var k := AddKid(st.nodes[p - 1], |st.nodes| + 1);
      assert AddKids(st.nodes[p - 1], [|st.nodes| + 1]) == k;
      assert (st.nodes + [n])[p - 1 := k] == st.nodes[p - 1 := k] + [n];
    }
  }

  lemma {:induction false} LeaveCloses(nodes: Table, al: Aliases, ctx: seq<nat>, id: nat, end: Event)
    requires 1 <= id <= |nodes| && !nodes[id - 1].ScalarNode?
    requires end == if nodes[id - 1].SequenceNode? then SequenceEnd else MappingEnd
    ensures Load(State(nodes, al, ctx + [id]), [end]) == Ok(State(nodes, al, ctx))
  {
    LoadOne(State(nodes, al, ctx + [id]), end);
    assert (ctx + [id])[..|ctx|] == ctx;
  }

  /** Inside a collection that was just opened: its children and its end. */
  lemma {:induction false} LoadInside(g: Table, al: Aliases, ctx: seq<nat>, n: Node, kids: seq<Tree>, end: Event)
    requires EvenAll(kids) && !n.ScalarNode? && Bound(al, |g| + 1)
    requires end == if n.SequenceNode? then SequenceEnd else MappingEnd
    ensures var id := |g| + 1;
      var r := PlaceAll(kids, al, id);
      Load(State(g + [n], al, ctx + [id]), EventsAll(kids) + [end]) ==
      if r.None? then Refused else Ok(State(g + ([AddKids(n, r.value.ids)] + r.value.nodes), r.value.al, ctx))
    decreases kids, 2
  {
    hide Load, EventsAll, PlaceAll, EvenAll, AddKid, AddKids;
    var id, st := |g| + 1, State(g + [n], al, ctx + [|g| + 1]);
    assert st.nodes[id - 1] == n;
    LoadAppend(st, EventsAll(kids), [end]);
    LoadForest(st, kids);
    var r := PlaceAll(kids, al, id);
    if r.Some? {
      var m := AddKids(n, r.value.ids);
      GrowLast(g, n, m, r.value.nodes);
      LeaveCloses(g + ([m] + r.value.nodes), r.value.al, ctx, id, end);
    }
  }

  lemma {:induction false} RegisterBound(al: Aliases, n: nat, a: Option<string>)
    requires Bound(al, n) && Register(al, n + 1, a).Some?
    ensures Bound(Register(al, n + 1, a).value, n + 1)
  {
  }

  lemma {:induction false} Regroup(a: seq<Event>, b: seq<Event>, c: seq<Event>)
    ensures a + b + c == a + (b + c)
  {
  }

  /** A collection: its start, its children and its end. */
  lemma {:induction false} LoadCollection(st: State, n: Node, a: Option<string>, start: Event, kids: seq<Tree>,
                                          end: Event)
    requires Open(st) && EvenAll(kids) && !n.ScalarNode?
    requires LoadEvent(st, start) == Enter(st, n, a) && end == (if n.SequenceNode? then SequenceEnd else MappingEnd)
    ensures var id := |st.nodes| + 1;
      var al := Register(st.aliases, id, a);
      Load(st, [start] + EventsAll(kids) + [end]) ==
      if al.None? then Refused
      else
        var r := PlaceAll(kids, al.value, id);
        if r.None? then Refused
        else Ok(State(Grow(st.nodes, st.ctx, id) + ([AddKids(n, r.value.ids)] + r.value.nodes), r.value.al, st.ctx))
    decreases kids, 3
  {
    hide Load, LoadEvent, EventsAll, PlaceAll, EvenAll, AddKid, AddKids, Enter, FindAlias, Register, Bound, Grow,
         GrowAll;
    var id := |st.nodes| + 1;
    var al := Register(st.aliases, id, a);
    EnterGrows(st, n, a);
    LoadOne(st, start);
    Regroup([start], EventsAll(kids), [end]);
    LoadAppend(st, [start], EventsAll(kids) + [end]);
    if al.Some? {
      RegisterBound(st.aliases, |st.nodes|, a);
      LoadInside(Grow(st.nodes, st.ctx, id), al.value, st.ctx, n, kids, end);
    }
  }

  lemma {:induction false} GrowMore(nodes: Table, ctx: seq<nat>, id: nat, ids: seq<nat>, a: Table, b: Table)
    requires ctx != [] && 1 <= ctx[|ctx| - 1] <= |nodes| && !nodes[ctx[|ctx| - 1] - 1].ScalarNode?
    ensures var p, g := ctx[|ctx| - 1], Grow(nodes, ctx, id) + a;
      && !g[p - 1].ScalarNode?
      && GrowAll(g, p, ids) + b == GrowAll(nodes, p, [id] + ids) + (a + b)
  {
    var p := ctx[|ctx| - 1];
    var k := AddKid(nodes[p - 1], id);
    var m := AddKids(k, ids);
    assert ([id] + ids)[1..] == ids && AddKids(nodes[p - 1], [id]) == k;
    assert (nodes[p - 1 := k] + a)[p - 1 := m] + b == nodes[p - 1 := m] + (a + b);
  }

  lemma {:induction false} GrowLast(g: Table, n: Node, m: Node, b: Table)
    ensures (g + [n])[|g| := m] + b == g + ([m] + b)
  {
  }

  lemma {:induction false} ForestCons(ts: seq<Tree>, al: Aliases, base: nat)
    requires ts != [] && EvenAll(ts)
    ensures Even(ts[0]) && EvenAll(ts[1..]) && EventsAll(ts) == Events(ts[0]) + EventsAll(ts[1..])
    ensures var a, r := Place(ts[0], al, base), PlaceAll(ts, al, base);
      if a.None? then r.None?
      else
        var b := PlaceAll(ts[1..], a.value.al, base + |a.value.nodes|);
        if b.None? then r.None?
        else r == Some(PlacedAll(a.value.nodes + b.value.nodes, [a.value.id] + b.value.ids, b.value.al))
  {
  }

  lemma {:induction false} NoForest(st: State)
    requires Open(st) && st.ctx != []
    ensures PlaceAll([], st.aliases, |st.nodes|) == Some(PlacedAll([], [], st.aliases))
    ensures var p := st.ctx[|st.ctx| - 1];
      Load(st, EventsAll([])) == Ok(State(GrowAll(st.nodes, p, []) + [], st.aliases, st.ctx))
  {
    var p := st.ctx[|st.ctx| - 1];
    assert st.nodes[p - 1 := st.nodes[p - 1]] + [] == st.nodes;
  }

  lemma {:induction false} LoadForest(st: State, ts: seq<Tree>)
    requires EvenAll(ts) && Open(st) && st.ctx != []
    ensures var p, r := st.ctx[|st.ctx| - 1], PlaceAll(ts, st.aliases, |st.nodes|);
      && (r.None? ==> Load(st, EventsAll(ts)) == Refused)
      && (r.Some? ==> Load(st, EventsAll(ts)) == Ok(State(GrowAll(st.nodes, p, r.value.ids) + r.value.nodes, r.value.al,
         st.ctx)))
    decreases ts, 0
  {
    hide GrowAll, Load, Events, EventsAll, Place, PlaceAll, AddKid, AddKids, EvenAll, Even;
    var p := st.ctx[|st.ctx| - 1];
    if ts == [] {
      NoForest(st);
    } else {
      ForestCons(ts, st.aliases, |st.nodes|);
      LoadAppend(st, Events(ts[0]), EventsAll(ts[1..]));
      LoadTree(st, ts[0]);
      PlaceBound(ts[0], st.aliases, |st.nodes|);
      var a := Place(ts[0], st.aliases, |st.nodes|);
      if a.Some? {
        GrowMore(st.nodes, st.ctx, a.value.id, [], a.value.nodes, []);
        var st1 := State(Grow(st.nodes, st.ctx, a.value.id) + a.value.nodes, a.value.al, st.ctx);
        assert Load(st, EventsAll(ts)) == Load(st1, EventsAll(ts[1..]));
        LoadForest(st1, ts[1..]);
        var b := PlaceAll(ts[1..], a.value.al, |st1.nodes|);
        if b.Some? {
          GrowMore(st.nodes, st.ctx, a.value.id, b.value.ids, a.value.nodes, b.value.nodes);
        }
      }
    }
  }

  /** A whole document: the table of recursive descent, or a refusal; never a broken
      assertion. */
  lemma {:induction false} LoadDocument(t: Tree)
    requires Even(t)
    ensures var r := Place(t, [], 0);
      Load(EMPTY, Events(t) + [DocumentEnd]) ==
      if r.None? then Refused else Ok(State(r.value.nodes, r.value.al, []))
  {
    LoadTree(EMPTY, t);
    LoadAppend(EMPTY, Events(t), [DocumentEnd]);
    var r := Place(t, [], 0);
    if r.Some? {
      assert [] + r.value.nodes == r.value.nodes;
      LoadOne(State(r.value.nodes, r.value.al, []), DocumentEnd);
    }
  }

  /** The loader's assertions hold at every point of every document. */
  lemma {:induction false} NeverBroken(es: seq<Event>, n: nat)
    requires IsDocument(es) && n <= |es|
    ensures Load(EMPTY, es[..n]) != Broken
  {
    var t :| Even(t) && es == Events(t) + [DocumentEnd];
    LoadDocument(t);
    assert es == es[..n] + es[n..];
    LoadAppend(EMPTY, es[..n], es[n..]);
  }

  // ---------- which documents load ----------

  function AnchorOn(e: Event): Option<string> {
    match e
    case Scalar(a, _, _) => a
    case SequenceStart(a, _) => a
    case MappingStart(a, _) => a
    case _ => None
  }

  /** One of the first `n` events has this anchor. */
  ghost predicate Introduced(es: seq<Event>, n: nat, a: string)
    requires n <= |es|
  {
    exists j :: 0 <= j < n && AnchorOn(es[j]) == Some(a)
  }

  /** An alias of nothing before it, or an anchor for the second time. */
  ghost predicate Misnamed(es: seq<Event>, i: nat)
    requires i < |es|
  {
    || (es[i].Alias? && !Introduced(es, i, es[i].anchor))
    || (AnchorOn(es[i]).Some? && Introduced(es, i, AnchorOn(es[i]).value))
  }

  ghost predicate Knows(al: Aliases, es: seq<Event>, n: nat)
    requires n <= |es|
  {
    forall a :: FindAlias(al, a) < |al| <==> Introduced(es, n, a)
  }

  /** A document loads if and only if every alias stands behind its anchor and no anchor is
      there twice. */
  lemma {:induction false} LoadsIff(es: seq<Event>)
    requires IsDocument(es)
    ensures Load(EMPTY, es).Ok? <==> forall i :: 0 <= i < |es| ==> !Misnamed(es, i)
  {
    LoadsUpTo(es, |es|);
    assert es[..|es|] == es;
  }

  lemma {:induction false} LoadsUpTo(es: seq<Event>, n: nat)
    requires IsDocument(es) && n <= |es|
    ensures var r := Load(EMPTY, es[..n]);
      && (r.Ok? <==> forall i :: 0 <= i < n ==> !Misnamed(es, i)) && (r.Ok? ==> Knows(r.st.aliases, es, n))
  {
    hide IsDocument, LoadEvent, Misnamed, Knows;
    if n == 0 {
      NoneKnown(es);
    } else {
      LoadsUpTo(es, n - 1);
      var e := es[n - 1];
      assert es[..n] == es[..n - 1] + [e];
      LoadAppend(EMPTY, es[..n - 1], [e]);
      NeverBroken(es, n);
      var r := Load(EMPTY, es[..n - 1]);
      if r.Ok? {
        LoadOne(r.st, e);
        EventKnows(r.st, es, n - 1);
      }
    }
  }

  lemma {:induction false} NoneKnown(es: seq<Event>)
    ensures Knows([], es, 0)
  {
  }

  lemma {:induction false} EventKnows(st: State, es: seq<Event>, n: nat)
    requires n < |es| && Knows(st.aliases, es, n) && LoadEvent(st, es[n]) != Broken
    ensures var r := LoadEvent(st, es[n]);
      (r.Ok? <==> !Misnamed(es, n)) && (r.Ok? ==> Knows(r.st.aliases, es, n + 1))
  {
    var e, al := es[n], st.aliases;
    var x := AnchorOn(e);
    IntroducedMore(es, n);
    EventNames(st, e);
    if x.Some? {
      assert FindAlias(al, x.value) < |al| <==> Introduced(es, n, x.value);
      if FindAlias(al, x.value) == |al| {
        OneKnown(al, AliasData(x.value, |st.nodes| + 1), es, n);
      }
    } else if e.Alias? {
      assert FindAlias(al, e.anchor) < |al| <==> Introduced(es, n, e.anchor);
    }
    hide FindAlias, Introduced, LoadEvent;
  }

  /** What an event needs of the names, and what it adds to them. */
  lemma {:induction false} EventNames(st: State, e: Event)
    requires LoadEvent(st, e) != Broken
    ensures var r, x, al := LoadEvent(st, e), AnchorOn(e), st.aliases;
      && (r.Ok? <==> (e.Alias? ==> FindAlias(al, e.anchor) < |al|) && (x.Some? ==> FindAlias(al, x.value) == |al|))
      && (r.Ok? ==> r.st.aliases == if x.None? then al else al + [AliasData(x.value, |st.nodes| + 1)])
  {
    hide FindAlias;
  }

  lemma {:induction false} IntroducedMore(es: seq<Event>, n: nat)
    requires n < |es|
    ensures forall a :: Introduced(es, n + 1, a) <==> Introduced(es, n, a) || AnchorOn(es[n]) == Some(a)
  {
  }

  lemma {:induction false} OneKnown(al: Aliases, d: AliasData, es: seq<Event>, n: nat)
    requires n < |es| && Knows(al, es, n) && AnchorOn(es[n]) == Some(d.anchor)
    ensures Knows(al + [d], es, n + 1)
  {
    var all := al + [d];
    IntroducedMore(es, n);
    forall a ensures FindAlias(all, a) < |all| <==> Introduced(es, n + 1, a) {
      FindMore(al, d, a);
      assert FindAlias(al, a) < |al| <==> Introduced(es, n, a);
    }
  }

  lemma {:induction false} FindMore(al: Aliases, d: AliasData, a: string)
    ensures FindAlias(al + [d], a) < |al| + 1 <==> FindAlias(al, a) < |al| || d.anchor == a
  {
    var all := al + [d];
    var k := FindAlias(all, a);
    assert all[|al|] == d && forall i :: 0 <= i < |al| ==> all[i] == al[i];
  }

  // ---------- the loader itself ----------

  class Loader {
    var nodes: Table
    var aliases: Aliases
    var ctx: seq<nat>

    ghost function Abs(): State
      reads this
    {
      State(nodes, aliases, ctx)
    }

    constructor ()
      ensures Abs() == EMPTY
    {
      nodes, aliases, ctx := [], [], [];
    }

    /** The search loop over the known anchors. */
    method Search(anchor: string) returns (k: nat)
      ensures k == FindAlias(aliases, anchor)
    {
      k := 0;
      while k < |aliases| && aliases[k].anchor != anchor
        invariant k <= |aliases| && FindAlias(aliases, anchor) == k + FindAlias(aliases[k..], anchor)
      {
        assert aliases[k..][1..] == aliases[k + 1..];
        k := k + 1;
      }
    }

    method RegisterAnchor(index: nat, anchor: Option<string>) returns (ok: bool)
      modifies this`aliases
      ensures var r := Register(old(aliases), index, anchor);
        ok == r.Some? && aliases == if ok then r.value else old(aliases)
    {
      if anchor.None? {
        return true;
      }
      var k := Search(anchor.value);
      if k < |aliases| {
        return false;
      }
      aliases := aliases + [AliasData(anchor.value, index)];
      ok := true;
    }

    method AddNode(index: nat)
      requires NodeAdd(Abs(), index) != Broken
      modifies this`nodes
      ensures Ok(Abs()) == NodeAdd(old(Abs()), index)
    {
      if ctx == [] {
        return;
      }
      var p := ctx[|ctx| - 1];
      match nodes[p - 1]
      case SequenceNode(tag, items) =>
        nodes := nodes[p - 1 := SequenceNode(tag, items + [index])];
      case MappingNode(tag, pairs) =>
        if pairs != [] {
          var last := pairs[|pairs| - 1];
          if last.key != 0 && last.val == 0 {
            nodes := nodes[p - 1 := MappingNode(tag, pairs[|pairs| - 1 := last.(val := index)])];
            return;
          }
        }
        nodes := nodes[p - 1 := MappingNode(tag, pairs + [Pair(index, 0)])];
    }

    method LoadNode(n: Node, anchor: Option<string>) returns (ok: bool)
      requires Enter(Abs(), n, anchor) != Broken
      modifies this
      ensures var r := Enter(old(Abs()), n, anchor); ok == r.Ok? && (ok ==> Abs() == r.st)
    {
      nodes := nodes + [n];
      var index := |nodes|;
      ok := RegisterAnchor(index, anchor);
      if ok {
        AddNode(index);
        if !n.ScalarNode? {
          ctx := ctx + [index];
        }
      }
    }

    method CloseNode(mapping: bool)
      requires Leave(Abs(), mapping) != Broken
      modifies this`ctx
      ensures Ok(Abs()) == Leave(old(Abs()), mapping)
    {
      assert |ctx| > 0;
      var index := ctx[|ctx| - 1];
      assert if mapping then nodes[index - 1].MappingNode? else nodes[index - 1].SequenceNode?;
      ctx := ctx[..|ctx| - 1];
    }

    /** One pass of the loop in `yaml_parser_load_nodes`. */
    method LoadOneEvent(e: Event) returns (ok: bool)
      requires LoadEvent(Abs(), e) != Broken
      modifies this
      ensures var r := LoadEvent(old(Abs()), e); ok == r.Ok? && (ok ==> Abs() == r.st)
    {
      ok := true;
      match e
      case Alias(a) =>
        var k := Search(a);
        if k < |aliases| {
          AddNode(aliases[k].index);
        } else {
          ok := false;
        }
      case Scalar(a, tag, v) =>
        ok := LoadNode(ScalarNode(Defaulted(tag, SCALAR_TAG), v), a);
      case SequenceStart(a, tag) =>
        ok := LoadNode(SequenceNode(Defaulted(tag, SEQUENCE_TAG), []), a);
      case SequenceEnd =>
        CloseNode(false);
      case MappingStart(a, tag) =>
        ok := LoadNode(MappingNode(Defaulted(tag, MAPPING_TAG), []), a);
      case MappingEnd =>
        CloseNode(true);
      case DocumentEnd =>
    }

    /** `yaml_parser_load_nodes` on a document of the parser. */
    method LoadNodes(es: seq<Event>) returns (ok: bool)
      requires Abs() == EMPTY && IsDocument(es)
      modifies this
      ensures var r := Load(EMPTY, es); ok == r.Ok? && (ok ==> Abs() == r.st)
    {
      hide LoadEvent, IsDocument;
      NeverBroken(es, |es|);
      assert es[..|es|] == es && es[0..] == es;
      var i := 0;
      while i < |es|
        invariant i <= |es| && Load(EMPTY, es) == Load(Abs(), es[i..])
      {
        assert es[i..][0] == es[i] && es[i..][1..] == es[i + 1..];
        ok := LoadOneEvent(es[i]);
        if !ok {
          return;
        }
        i := i + 1;
      }
      ok := true;
    }
  }
}
