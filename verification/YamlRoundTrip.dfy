/** Loader and dumper undo each other. */
module YamlRoundTrip {
  import opened Basics
  import opened YamlNodes
  import opened YamlLoader
  import opened YamlWalk
  import opened YamlDumper

  // ---------- renaming anchors ----------

  /** The names that aliases refer to, in order. */
  function Used(t: Tree): seq<string>
    decreases t, 1
  {
    match t
    case AliasTree(a) => [a]
    case ScalarTree(_, _, _) => []
    case SequenceTree(_, _, kids) => UsedAll(kids)
    case MappingTree(_, _, kids) => UsedAll(kids)
  }

  function UsedAll(ts: seq<Tree>): seq<string>
    decreases ts, 0
  {
    if ts == [] then [] else Used(ts[0]) + UsedAll(ts[1..])
  }

  function NewName(name: Option<string>, ren: map<string, string>): Option<string> {
    if name.Some? && name.value in ren then Some(ren[name.value]) else None
  }

  /** The document with its anchors renamed, those without a new name left out, and the
      default tags filled in. */
  function Renamed(t: Tree, ren: map<string, string>): Tree
    decreases t, 1
  {
    match t
    case AliasTree(a) => AliasTree(if a in ren then ren[a] else a)
    case ScalarTree(n, tag, v) => ScalarTree(NewName(n, ren), Some(Defaulted(tag, SCALAR_TAG)), v)
    case SequenceTree(n, tag, kids) =>
      SequenceTree(NewName(n, ren), Some(Defaulted(tag, SEQUENCE_TAG)), RenamedAll(kids, ren))
    case MappingTree(n, tag, kids) =>
      MappingTree(NewName(n, ren), Some(Defaulted(tag, MAPPING_TAG)), RenamedAll(kids, ren))
  }

  function RenamedAll(ts: seq<Tree>, ren: map<string, string>): seq<Tree>
    decreases ts, 0
  {
    if ts == [] then [] else [Renamed(ts[0], ren)] + RenamedAll(ts[1..], ren)
  }

  /** New names, all different, for exactly the anchors that are referred to. */
  ghost predicate Renaming(t: Tree, ren: map<string, string>) {
    && (forall a :: a in ren <==> a in Used(t))
    && (forall a, b :: a in ren && b in ren && ren[a] == ren[b] ==> a == b)
  }

  /** The numbers from `a + 1` to `a + n`. */
  function Range(a: nat, n: nat): seq<nat> {
    seq(n, i requires 0 <= i < n => a + 1 + i)
  }

  ghost predicate Tagged(nodes: Table) {
    forall i :: 0 <= i < |nodes| ==> nodes[i].tag != "!"
  }

  /** `s` holds `part` from place `base` on. */
  ghost predicate Holds<T>(s: seq<T>, base: nat, part: seq<T>) {
    base + |part| <= |s| && s[base..base + |part|] == part
  }

  lemma {:induction false} HoldsSplit<T>(s: seq<T>, base: nat, a: seq<T>, b: seq<T>)
    requires Holds(s, base, a + b)
    ensures Holds(s, base, a) && Holds(s, base + |a|, b)
  {
    var p := s[base..base + |a + b|];
    assert s[base..base + |a|] == p[..|a|] && s[base + |a|..base + |a| + |b|] == p[|a|..];
  }

  lemma {:induction false} RangeSplit(a: nat, n: nat, m: nat)
    ensures Range(a, n + m) == Range(a, n) + Range(a + n, m)
  {
  }

  lemma {:induction false} RangeOne(a: nat, n: nat)
    ensures Range(a, 1 + n) == [a + 1] + Range(a + 1, n)
  {
  }

  /** Meeting the next nodes in order. */
  lemma {:induction false} MetRange(w: Walk, a: nat, n: nat)
    requires Firsts(w) == Range(a, n)
    ensures UpTo(a) + Met(w) == UpTo(a + n)
  {
    forall x ensures x in Met(w) <==> a + 1 <= x <= a + n {
      if a + 1 <= x <= a + n { assert Range(a, n)[x - a - 1] == x; }
    }
  }

  // ---------- the names of the nodes ----------

  /** The anchors of the nodes, in the order in which they are loaded. */
  function NamesOf(t: Tree): seq<Option<string>>
    decreases t, 1
  {
    match t
    case AliasTree(_) => []
    case ScalarTree(n, _, _) => [n]
    case SequenceTree(n, _, kids) => [n] + NamesAll(kids)
    case MappingTree(n, _, kids) => [n] + NamesAll(kids)
  }

  function NamesAll(ts: seq<Tree>): seq<Option<string>>
    decreases ts, 0
  {
    if ts == [] then [] else NamesOf(ts[0]) + NamesAll(ts[1..])
  }

  /** Where a name first stands, or |names|. */
  function Pos(names: seq<Option<string>>, a: string): (k: nat)
    ensures k <= |names| && (k < |names| ==> names[k] == Some(a)) && forall i :: 0 <= i < k ==> names[i] != Some(a)
  {
    if names == [] then 0 else if names[0] == Some(a) then 0 else 1 + Pos(names[1..], a)
  }

  /** The anchors known after the first `n` nodes. */
  function Listed(names: seq<Option<string>>, n: nat): Aliases {
    if n == 0 then []
    else Listed(names, n - 1) + if n <= |names| && names[n - 1].Some? then [AliasData(names[n - 1].value, n)] else []
  }

  lemma {:induction false} FindAppend(x: Aliases, y: Aliases, a: string)
    ensures var k := FindAlias(x, a); FindAlias(x + y, a) == if k < |x| then k else |x| + FindAlias(y, a)
  {
    if x == [] {
      assert x + y == y;
    } else {
      assert (x + y)[1..] == x[1..] + y && (x + y)[0] == x[0];
      FindAppend(x[1..], y, a);
    }
  }

  /** A name is found at its first place. */
  lemma {:induction false} ListedFind(names: seq<Option<string>>, n: nat, a: string)
    requires n <= |names|
    ensures var al, i := Listed(names, n), Pos(names, a);
      var k := FindAlias(al, a);
      if i < n then k < |al| && al[k].index == i + 1 else k == |al|
  {
    if n > 0 {
      ListedFind(names, n - 1, a);
      var last := if names[n - 1].Some? then [AliasData(names[n - 1].value, n)] else [];
      FindAppend(Listed(names, n - 1), last, a);
    }
  }

  lemma {:induction false} ListedBound(names: seq<Option<string>>, n: nat)
    ensures Bound(Listed(names, n), n)
  {
    if n > 0 {
      ListedBound(names, n - 1);
    }
  }

  ghost predicate Defined(names: seq<Option<string>>, used: seq<string>, n: nat) {
    forall a :: a in used ==> Pos(names, a) < n
  }

  /** Each name between the two places stands there for the first time. */
  ghost predicate FirstHere(names: seq<Option<string>>, lo: nat, hi: nat) {
    forall j :: lo <= j < hi <= |names| && names[j].Some? ==> Pos(names, names[j].value) == j
  }

  lemma {:induction false} Registered(names: seq<Option<string>>, base: nat, al: Aliases)
    requires base < |names| && Register(Listed(names, base), base + 1, names[base]) == Some(al)
    ensures al == Listed(names, base + 1) && FirstHere(names, base, base + 1)
  {
    if names[base].Some? {
      ListedFind(names, base, names[base].value);
    } else {
      assert Listed(names, base) + [] == Listed(names, base);
    }
  }

  /** What loading says about names: each node gets its own, no name comes twice, and
      every alias names an earlier node. */
  lemma {:induction false} PlaceNames(t: Tree, names: seq<Option<string>>, base: nat)
    requires Even(t) && Holds(names, base, NamesOf(t)) && Place(t, Listed(names, base), base).Some?
    ensures var p, n := Place(t, Listed(names, base), base).value, |NamesOf(t)|;
      && |p.nodes| == n && p.al == Listed(names, base + n)
      && p.id == (if t.AliasTree? then Pos(names, t.anchor) + 1 else base + 1)
      && (t.AliasTree? ==> p.id <= base)
      && Defined(names, Used(t), base + n) && FirstHere(names, base, base + n)
    decreases t, 1
  {
    hide FindAlias, Pos, Defined, FirstHere, NamesAll, EvenAll, PlaceAll, UsedAll, Listed, Register;
    match t
    case AliasTree(a) =>
      ListedFind(names, base, a);
      AliasDefined(names, base, a);
    case ScalarTree(a, tag, v) =>
      assert names[base..base + 1][0] == names[base];
      Registered(names, base, Register(Listed(names, base), base + 1, a).value);
      NoneDefined(names, base + 1);
    case _ =>
      ListedBound(names, base);
      var al, n := CollectionPlaced(t, Listed(names, base), base);
      NodeNames(t);
      HoldsSplit(names, base, [t.name], NamesAll(t.kids));
      assert names[base..base + 1][0] == names[base];
      Registered(names, base, al);
      PlaceAllNames(t.kids, names, base + 1);
      FirstHereJoin(names, base, base + 1, base + 1 + |NamesAll(t.kids)|);
  }

  lemma {:induction false} NodeNames(t: Tree)
    requires t.SequenceTree? || t.MappingTree?
    ensures NamesOf(t) == [t.name] + NamesAll(t.kids) && Used(t) == UsedAll(t.kids)
  {
  }

  lemma {:induction false} AliasDefined(names: seq<Option<string>>, base: nat, a: string)
    requires Pos(names, a) < base
    ensures Defined(names, Used(AliasTree(a)), base) && FirstHere(names, base, base)
  {
  }

  lemma {:induction false} NoneDefined(names: seq<Option<string>>, n: nat)
    ensures Defined(names, [], n)
  {
  }

  lemma {:induction false} FirstHereJoin(names: seq<Option<string>>, lo: nat, mid: nat, hi: nat)
    requires lo <= mid <= hi <= |names| && FirstHere(names, lo, mid) && FirstHere(names, mid, hi)
    ensures FirstHere(names, lo, hi)
  {
  }

  lemma {:induction false} DefinedJoin(names: seq<Option<string>>, a: seq<string>, b: seq<string>, m: nat, n: nat)
    requires Defined(names, a, m) && Defined(names, b, n) && m <= n
    ensures Defined(names, a + b, n)
  {
  }

  lemma {:induction false} PlaceAllNames(ts: seq<Tree>, names: seq<Option<string>>, base: nat)
    requires EvenAll(ts) && Holds(names, base, NamesAll(ts)) && PlaceAll(ts, Listed(names, base), base).Some?
    ensures var p, n := PlaceAll(ts, Listed(names, base), base).value, |NamesAll(ts)|;
      && |p.nodes| == n && p.al == Listed(names, base + n)
      && Defined(names, UsedAll(ts), base + n) && FirstHere(names, base, base + n)
    decreases ts, 0
  {
    hide Place, PlaceAll, Even, EvenAll, Pos, Defined, FirstHere, Listed, NamesOf, Used;
    PlaceAllParts(ts, Listed(names, base), base);
    if ts == [] {
      NoneDefined(names, base);
      FirstHereNone(names, base);
    } else {
      var n := |NamesOf(ts[0])|;
      HoldsSplit(names, base, NamesOf(ts[0]), NamesAll(ts[1..]));
      PlaceNames(ts[0], names, base);
      PlaceAllNames(ts[1..], names, base + n);
      DefinedJoin(names, Used(ts[0]), UsedAll(ts[1..]), base + n, base + n + |NamesAll(ts[1..])|);
      FirstHereJoin(names, base, base + n, base + n + |NamesAll(ts[1..])|);
    }
  }

  lemma {:induction false} FirstHereNone(names: seq<Option<string>>, base: nat)
    ensures FirstHere(names, base, base)
  {
  }

  // ---------- what a loaded table looks like to the dumper ----------

  /** The walk through the nodes of a tree that was loaded behind `base` nodes. */
  function WalkOf(t: Tree, names: seq<Option<string>>, base: nat): Walk
    decreases t, 1
  {
    match t
    case AliasTree(a) => Again(Pos(names, a) + 1)
    case ScalarTree(_, _, _) => First(base + 1, [])
    case SequenceTree(_, _, kids) => First(base + 1, WalksOf(kids, names, base + 1))
    case MappingTree(_, _, kids) => First(base + 1, WalksOf(kids, names, base + 1))
  }

  function WalksOf(ts: seq<Tree>, names: seq<Option<string>>, base: nat): (ws: seq<Walk>)
    ensures |ws| == |ts|
    decreases ts, 0
  {
    if ts == [] then [] else [WalkOf(ts[0], names, base)] + WalksOf(ts[1..], names, base + |NamesOf(ts[0])|)
  }

  lemma {:induction false} WalkFirsts(t: Tree, names: seq<Option<string>>, base: nat)
    ensures Firsts(WalkOf(t, names, base)) == Range(base, |NamesOf(t)|)
    decreases t, 1
  {
    match t
    case AliasTree(_) =>
    case ScalarTree(_, _, _) =>
      assert FirstsAll([]) == [];
    case _ =>
      WalksFirsts(t.kids, names, base + 1);
      RangeOne(base, |NamesAll(t.kids)|);
  }

  lemma {:induction false} WalksFirsts(ts: seq<Tree>, names: seq<Option<string>>, base: nat)
    ensures FirstsAll(WalksOf(ts, names, base)) == Range(base, |NamesAll(ts)|)
    decreases ts, 0
  {
    hide WalkOf, Firsts, NamesOf;
    if ts != [] {
      var n := |NamesOf(ts[0])|;
      WalkFirsts(ts[0], names, base);
      WalksFirsts(ts[1..], names, base + n);
      RangeSplit(base, n, |NamesAll(ts[1..])|);
      assert WalksOf(ts, names, base)[1..] == WalksOf(ts[1..], names, base + n);
    }
  }

  /** The nodes that aliases lead to. */
  function Targets(used: seq<string>, names: seq<Option<string>>): seq<nat> {
    if used == [] then [] else [Pos(names, used[0]) + 1] + Targets(used[1..], names)
  }

  lemma {:induction false} TargetsAppend(a: seq<string>, b: seq<string>, names: seq<Option<string>>)
    ensures Targets(a + b, names) == Targets(a, names) + Targets(b, names)
  {
    if a == [] {
      assert a + b == b;
    } else {
      assert (a + b)[1..] == a[1..] + b && (a + b)[0] == a[0];
      TargetsAppend(a[1..], b, names);
    }
  }

  lemma {:induction false} TargetOf(used: seq<string>, names: seq<Option<string>>, a: string)
    requires a in used
    ensures Pos(names, a) + 1 in Targets(used, names)
  {
    hide Pos;
    if used[0] != a {
      assert a in used[1..];
      TargetOf(used[1..], names, a);
    }
  }

  lemma {:induction false} TargetFrom(used: seq<string>, names: seq<Option<string>>, x: nat) returns (a: string)
    requires x in Targets(used, names)
    ensures a in used && x == Pos(names, a) + 1
  {
    hide Pos;
    a := used[0];
    if x != Pos(names, a) + 1 {
      a := TargetFrom(used[1..], names, x);
    }
  }

  lemma {:induction false} WalkAgains(t: Tree, names: seq<Option<string>>, base: nat)
    ensures Agains(WalkOf(t, names, base)) == Targets(Used(t), names)
    decreases t, 1
  {
    match t
    case AliasTree(a) =>
      assert [a][1..] == [];
    case ScalarTree(_, _, _) =>
    case _ =>
      WalksAgains(t.kids, names, base + 1);
  }

  lemma {:induction false} WalksAgains(ts: seq<Tree>, names: seq<Option<string>>, base: nat)
    ensures AgainsAll(WalksOf(ts, names, base)) == Targets(UsedAll(ts), names)
    decreases ts, 0
  {
    hide WalkOf, Agains, NamesOf, Used, Targets;
    if ts == [] {
      NoTargets(names);
    } else {
      var n := |NamesOf(ts[0])|;
      WalkAgains(ts[0], names, base);
      WalksAgains(ts[1..], names, base + n);
      TargetsAppend(Used(ts[0]), UsedAll(ts[1..]), names);
      assert WalksOf(ts, names, base)[1..] == WalksOf(ts[1..], names, base + n);
    }
  }

  lemma {:induction false} NoTargets(names: seq<Option<string>>)
    ensures Targets([], names) == []
  {
  }

  /** The table has what was loaded for `t` behind its first `base` nodes. */
  ghost predicate Loaded(nodes: Table, t: Tree, names: seq<Option<string>>, base: nat) {
    && Even(t) && Holds(names, base, NamesOf(t)) && Place(t, Listed(names, base), base).Some?
    && Holds(nodes, base, Place(t, Listed(names, base), base).value.nodes)
  }

  ghost predicate LoadedAll(nodes: Table, ts: seq<Tree>, names: seq<Option<string>>, base: nat) {
    && EvenAll(ts) && Holds(names, base, NamesAll(ts)) && PlaceAll(ts, Listed(names, base), base).Some?
    && Holds(nodes, base, PlaceAll(ts, Listed(names, base), base).value.nodes)
  }

  /** A loaded collection: its node, and its children behind it. */
  lemma {:induction false} LoadedNode(nodes: Table, t: Tree, names: seq<Option<string>>, base: nat) returns (n: Node)
    requires Loaded(nodes, t, names, base) && (t.SequenceTree? || t.MappingTree?)
    ensures LoadedAll(nodes, t.kids, names, base + 1) && base < |nodes| && nodes[base] == n
    ensures Kids(n) == PlaceAll(t.kids, Listed(names, base + 1), base + 1).value.ids
    ensures Unfold(nodes, UpTo(base), base + 1) == First(base + 1, UnfoldAll(nodes, UpTo(base + 1), Kids(n)))
    ensures !n.ScalarNode? && (n.SequenceNode? <==> t.SequenceTree?)
    ensures n.tag == Defaulted(t.tag, if t.SequenceTree? then SEQUENCE_TAG else MAPPING_TAG)
    ensures Place(t, Listed(names, base), base).value.id == base + 1
  {
    hide Place, PlaceAll, EvenAll, NamesAll, Listed, Register, UpTo, Unfold, UnfoldAll;
    ListedBound(names, base);
    var al;
    al, n := CollectionPlaced(t, Listed(names, base), base);
    NodeNames(t);
    HoldsSplit(names, base, [t.name], NamesAll(t.kids));
    assert names[base..base + 1][0] == names[base];
    Registered(names, base, al);
    NodeMet(nodes, base, n, PlaceAll(t.kids, al, base + 1).value.nodes);
  }

  lemma {:induction false} LoadedCons(nodes: Table, ts: seq<Tree>, names: seq<Option<string>>, base: nat)
    requires LoadedAll(nodes, ts, names, base) && ts != []
    ensures var n := |NamesOf(ts[0])|;
      && Loaded(nodes, ts[0], names, base) && LoadedAll(nodes, ts[1..], names, base + n)
      && PlaceAll(ts, Listed(names, base), base).value.ids ==
         [Place(ts[0], Listed(names, base), base).value.id] +
         PlaceAll(ts[1..], Listed(names, base + n), base + n).value.ids
  {
    hide Place, PlaceAll, Even, EvenAll, NamesOf, Listed, Holds;
    var n := |NamesOf(ts[0])|;
    PlaceAllParts(ts, Listed(names, base), base);
    HoldsSplit(names, base, NamesOf(ts[0]), NamesAll(ts[1..]));
    PlaceNames(ts[0], names, base);
    HoldsSplit(nodes, base, Place(ts[0], Listed(names, base), base).value.nodes,
               PlaceAll(ts[1..], Listed(names, base + n), base + n).value.nodes);
  }

  /** Walking through a loaded table meets its nodes in order and goes back to a node
      exactly where an alias named it. */
  lemma {:induction false} PlacedWalk(nodes: Table, names: seq<Option<string>>, t: Tree, base: nat)
    requires Loaded(nodes, t, names, base)
    ensures Unfold(nodes, UpTo(base), Place(t, Listed(names, base), base).value.id) == WalkOf(t, names, base)
    decreases t, 1
  {
    hide Unfold, UnfoldAll, Kids, PlaceAll, UpTo, Listed, WalksOf, Pos;
    PlaceNames(t, names, base);
    match t
    case AliasTree(a) =>
      AliasMet(nodes, base, Pos(names, a) + 1);
    case ScalarTree(a, tag, v) =>
      var n := Place(t, Listed(names, base), base).value.nodes[0];
      NodeMet(nodes, base, n, []);
      NoKids(nodes, base + 1, n);
    case _ =>
      hide Place;
      var n := LoadedNode(nodes, t, names, base);
      PlacedWalkAll(nodes, names, t.kids, base + 1);
  }

  lemma {:induction false} NoKids(nodes: Table, base: nat, n: Node)
    requires n.ScalarNode?
    ensures UnfoldAll(nodes, UpTo(base), Kids(n)) == []
  {
  }

  lemma {:induction false} AliasMet(nodes: Table, base: nat, id: nat)
    requires 1 <= id <= base
    ensures Unfold(nodes, UpTo(base), id) == Again(id)
  {
  }

  /** What is placed for a collection: its node, and its children behind it. */
  lemma {:induction false} CollectionPlaced(t: Tree, al: Aliases, base: nat) returns (al1: Aliases, n: Node)
    requires (t.SequenceTree? || t.MappingTree?) && Even(t) && Bound(al, base) && Place(t, al, base).Some?
    ensures Bound(al1, base + 1) && EvenAll(t.kids) && PlaceAll(t.kids, al1, base + 1).Some?
    ensures !n.ScalarNode? && n.tag != "!" && (n.SequenceNode? <==> t.SequenceTree?)
    ensures n.tag == Defaulted(t.tag, if t.SequenceTree? then SEQUENCE_TAG else MAPPING_TAG)
    ensures var p, q := Place(t, al, base).value, PlaceAll(t.kids, al1, base + 1).value;
      p.id == base + 1 && p.nodes == [n] + q.nodes && Kids(n) == q.ids && p.al == q.al
    ensures Register(al, base + 1, t.name) == Some(al1)
  {
    al1, n := Register(al, base + 1, t.name).value, Place(t, al, base).value.nodes[0];
  }

  /** A node that is met right behind the first `base` ones. */
  lemma {:induction false} NodeMet(nodes: Table, base: nat, n: Node, rest: Table)
    requires Holds(nodes, base, [n] + rest)
    ensures base < |nodes| && nodes[base] == n
    ensures Unfold(nodes, UpTo(base), base + 1) == First(base + 1, UnfoldAll(nodes, UpTo(base + 1), Kids(n)))
    ensures Holds(nodes, base + 1, rest)
  {
    HoldsSplit(nodes, base, [n], rest);
    assert nodes[base] == nodes[base..base + 1][0];
    assert UpTo(base) + {base + 1} == UpTo(base + 1);
  }

  lemma {:induction false} PlacedWalkAll(nodes: Table, names: seq<Option<string>>, ts: seq<Tree>, base: nat)
    requires LoadedAll(nodes, ts, names, base)
    ensures UnfoldAll(nodes, UpTo(base), PlaceAll(ts, Listed(names, base), base).value.ids) == WalksOf(ts, names, base)
    decreases ts, 0
  {
    hide Unfold, UnfoldAll, Place, PlaceAll, UpTo, Listed, WalkOf, NamesOf, Met, Firsts, Range, Holds, Even, EvenAll;
    if ts == [] {
      WalkNone(nodes, names, base);
    } else {
      LoadedCons(nodes, ts, names, base);
      var n := |NamesOf(ts[0])|;
      PlacedWalk(nodes, names, ts[0], base);
      PlacedWalkAll(nodes, names, ts[1..], base + n);
      WalkFirsts(ts[0], names, base);
      LoadedId(nodes, ts[0], names, base);
      MetRange(WalkOf(ts[0], names, base), base, n);
      WalkCons(nodes, UpTo(base), Place(ts[0], Listed(names, base), base).value.id,
               PlaceAll(ts[1..], Listed(names, base + n), base + n).value.ids);
    }
  }

  lemma {:induction false} LoadedId(nodes: Table, t: Tree, names: seq<Option<string>>, base: nat)
    requires Loaded(nodes, t, names, base)
    ensures Even(t) && Place(t, Listed(names, base), base).Some?
  {
  }

  lemma {:induction false} WalkNone(nodes: Table, names: seq<Option<string>>, base: nat)
    requires LoadedAll(nodes, [], names, base)
    ensures UnfoldAll(nodes, UpTo(base), PlaceAll([], Listed(names, base), base).value.ids) == WalksOf([], names, base)
  {
  }

  lemma {:induction false} WalkCons(nodes: Table, s: set<nat>, id: nat, ids: seq<nat>)
    ensures var w := Unfold(nodes, s, id); UnfoldAll(nodes, s, [id] + ids) == [w] + UnfoldAll(nodes, s + Met(w), ids)
  {
    assert ([id] + ids)[1..] == ids;
  }

  // ---------- what is dumped ----------

  /** The anchors that the dumper gives are the new names. */
  ghost predicate Fits(names: seq<Option<string>>, anchors: seq<nat>, ren: map<string, string>) {
    forall id: nat :: 1 <= id <= |names| ==> AnchorOf(anchors, id) == NewName(names[id - 1], ren)
  }

  ghost predicate Covered(used: seq<string>, ren: map<string, string>) {
    forall a :: a in used ==> a in ren
  }

  lemma {:induction false} WalkTree(nodes: Table, names: seq<Option<string>>, anchors: seq<nat>,
                                    ren: map<string, string>, t: Tree, base: nat)
    requires Loaded(nodes, t, names, base) && Fits(names, anchors, ren) && Covered(Used(t), ren)
    ensures TreeOf(nodes, anchors, WalkOf(t, names, base)) == Renamed(t, ren)
    decreases t, 1
  {
    hide TreesOf, WalksOf, RenamedAll, PlaceAll, Pos, Listed, AnchorOf, Kids, UsedAll;
    PlaceNames(t, names, base);
    match t
    case AliasTree(a) =>
      assert a in Used(t);
    case ScalarTree(a, tag, v) =>
      var n := Place(t, Listed(names, base), base).value.nodes[0];
      NodeMet(nodes, base, n, []);
      assert names[base] == names[base..base + 1][0];
      LeafTree(nodes, anchors, base + 1);
    case _ =>
      hide Place;
      var n := LoadedNode(nodes, t, names, base);
      WalkTrees(nodes, names, anchors, ren, t.kids, base + 1);
      NodeNames(t);
      assert names[base] == names[base..base + |NamesOf(t)|][0];
      NodeTree(nodes, anchors, base + 1, WalksOf(t.kids, names, base + 1));
  }

  lemma {:induction false} LeafTree(nodes: Table, anchors: seq<nat>, id: nat)
    requires 1 <= id <= |nodes| && nodes[id - 1].ScalarNode?
    ensures var n := nodes[id - 1];
      TreeOf(nodes, anchors, First(id, [])) == ScalarTree(AnchorOf(anchors, id), Some(n.tag), n.text)
  {
  }

  /** The tree of a collection that is met for the first time. */
  lemma {:induction false} NodeTree(nodes: Table, anchors: seq<nat>, id: nat, ws: seq<Walk>)
    requires 1 <= id <= |nodes| && !nodes[id - 1].ScalarNode?
    ensures var n, a, kids := nodes[id - 1], AnchorOf(anchors, id), TreesOf(nodes, anchors, ws);
      TreeOf(nodes, anchors, First(id, ws)) ==
      if n.SequenceNode? then SequenceTree(a, Some(n.tag), kids) else MappingTree(a, Some(n.tag), kids)
  {
  }

  lemma {:induction false} WalkTrees(nodes: Table, names: seq<Option<string>>, anchors: seq<nat>,
                                     ren: map<string, string>, ts: seq<Tree>, base: nat)
    requires LoadedAll(nodes, ts, names, base) && Fits(names, anchors, ren) && Covered(UsedAll(ts), ren)
    ensures TreesOf(nodes, anchors, WalksOf(ts, names, base)) == RenamedAll(ts, ren)
    decreases ts, 0
  {
    hide TreeOf, WalkOf, Renamed, Place, PlaceAll, Listed, Loaded, LoadedAll, Used, NamesOf, Fits;
    if ts != [] {
      LoadedCons(nodes, ts, names, base);
      var n := |NamesOf(ts[0])|;
      WalkTree(nodes, names, anchors, ren, ts[0], base);
      WalkTrees(nodes, names, anchors, ren, ts[1..], base + n);
      assert WalksOf(ts, names, base)[1..] == WalksOf(ts[1..], names, base + n);
    }
  }

  /** The new names: those that the dumper gives to the nodes that aliases lead to. */
  ghost function NewNames(used: seq<string>, names: seq<Option<string>>, anchors: seq<nat>): map<string, string> {
    map a | a in used :: AnchorName(if Pos(names, a) < |anchors| then anchors[Pos(names, a)] else 0)
  }

  /** A node has an anchor exactly when an alias leads to it. */
  ghost predicate Pointed(used: seq<string>, names: seq<Option<string>>, anchors: seq<nat>) {
    && |anchors| == |names|
    && (forall a :: a in used ==> Pos(names, a) < |names| && anchors[Pos(names, a)] != 0)
    && (forall i :: 0 <= i < |names| && anchors[i] != 0 ==> names[i].Some? && names[i].value in used)
  }

  lemma {:induction false} NewNamesFit(used: seq<string>, names: seq<Option<string>>, anchors: seq<nat>)
    requires Pointed(used, names, anchors) && FirstHere(names, 0, |names|)
    ensures Fits(names, anchors, NewNames(used, names, anchors))
  {
    hide Pos;
    var ren := NewNames(used, names, anchors);
    forall id: nat | 1 <= id <= |names| ensures AnchorOf(anchors, id) == NewName(names[id - 1], ren) {
      if names[id - 1].Some? && names[id - 1].value in used {
        assert Pos(names, names[id - 1].value) == id - 1;
      }
    }
  }

  lemma {:induction false} PosNamed(names: seq<Option<string>>, a: string)
    requires Pos(names, a) < |names|
    ensures names[Pos(names, a)] == Some(a)
  {
  }

  lemma {:induction false} NewNamesDiffer(t: Tree, names: seq<Option<string>>, anchors: seq<nat>)
    requires Pointed(Used(t), names, anchors) && Unique(anchors)
    ensures Renaming(t, NewNames(Used(t), names, anchors))
  {
    hide Pos, Used, AnchorName;
    var ren := NewNames(Used(t), names, anchors);
    forall a, b | a in ren && b in ren && ren[a] == ren[b] ensures a == b {
      var i, j := Pos(names, a), Pos(names, b);
      AnchorNamesDiffer(anchors[i], anchors[j]);
      PosNamed(names, a);
      PosNamed(names, b);
    }
  }

  /** The dumper's anchors: a node is visited again exactly where an alias leads to it. */
  lemma {:induction false} AnchorsPointed(nodes: Table, names: seq<Option<string>>, used: seq<string>)
    requires Closed(nodes) && nodes != [] && |names| == |nodes| && Firsts(RootWalk(nodes)) == Range(0, |nodes|)
    requires Agains(RootWalk(nodes)) == Targets(used, names)
    ensures Pointed(used, names, FinalMarks(nodes).anchors)
  {
    hide Pos, Firsts, Agains, Targets, RootWalk, FinalMarks, Closed, InOrder, Sound, Range;
    var m := FinalMarks(nodes);
    FinalSize(nodes);
    AliasesAnchored(nodes);
    forall a | a in used ensures Pos(names, a) < |names| && m.anchors[Pos(names, a)] != 0 {
      TargetOf(used, names, a);
    }
    forall i | 0 <= i < |names| && m.anchors[i] != 0 ensures names[i].Some? && names[i].value in used {
      AnchoredAgain(nodes, i + 1);
      var a := TargetFrom(used, names, i + 1);
      PosNamed(names, a);
    }
  }

  lemma {:induction false} FinalSize(nodes: Table)
    ensures |FinalMarks(nodes).anchors| == |nodes|
  {
    FinalSound(nodes);
  }

  lemma {:induction false} AnchoredAgain(nodes: Table, id: nat)
    requires 1 <= id <= |nodes| && Firsts(RootWalk(nodes)) == Range(0, |nodes|)
    requires |FinalMarks(nodes).anchors| == |nodes| && FinalMarks(nodes).anchors[id - 1] != 0
    ensures id in Agains(RootWalk(nodes))
  {
    hide Unfold, Visits, Firsts, Agains, MarkAll;
    var w := RootWalk(nodes);
    MarkAllCounts(NoMarks(|nodes|), Visits(w));
    VisitsSplit(w);
    RangeOnce(|nodes|, id);
    assert id in multiset(Agains(w));
  }

  lemma {:induction false} RangeOnce(n: nat, id: nat)
    ensures multiset(Range(0, n))[id] <= 1
  {
    if n > 0 {
      RangeOnce(n - 1, id);
      var r := Range(0, n - 1);
      assert Range(0, n) == r + [n];
      assert forall i :: 0 <= i < |r| ==> r[i] != n;
      assert n !in multiset(r);
    }
  }

  // ---------- loading what was dumped ----------

  /** The anchors the loader knows after the first `n` nodes of a dumped table. */
  ghost function Known(anchors: seq<nat>, n: nat): Aliases {
    if n == 0 then []
    else Known(anchors, n - 1) + if AnchorOf(anchors, n).Some? then [AliasData(AnchorOf(anchors, n).value, n)] else []
  }

  ghost predicate Unique(anchors: seq<nat>) {
    forall i, j :: 0 <= i < j < |anchors| && anchors[i] != 0 ==> anchors[i] != anchors[j]
  }

  lemma {:induction false} KnownEntries(anchors: seq<nat>, n: nat)
    ensures var al := Known(anchors, n);
      && (forall k :: 0 <= k < |al| ==> 1 <= al[k].index <= n && AnchorOf(anchors, al[k].index) == Some(al[k].anchor))
      && (forall id :: 1 <= id <= n && AnchorOf(anchors, id).Some? ==> AliasData(AnchorOf(anchors, id).value, id) in al)
  {
    if n > 0 { KnownEntries(anchors, n - 1); }
  }

  lemma {:induction false} KnownEntry(anchors: seq<nat>, n: nat, k: nat)
    requires k < |Known(anchors, n)|
    ensures var x := Known(anchors, n)[k]; 1 <= x.index <= n && AnchorOf(anchors, x.index) == Some(x.anchor)
  {
    hide AnchorOf;
    KnownEntries(anchors, n);
  }

  lemma {:induction false} AnchorsDiffer(anchors: seq<nat>, i: nat, j: nat)
    requires Unique(anchors) && AnchorOf(anchors, i).Some? && AnchorOf(anchors, i) == AnchorOf(anchors, j)
    ensures i == j
  {
    AnchorNamesDiffer(anchors[i - 1], anchors[j - 1]);
  }

  /** An alias finds its node. */
  lemma {:induction false} KnownFind(anchors: seq<nat>, n: nat, id: nat)
    requires Unique(anchors) && 1 <= id <= n && AnchorOf(anchors, id).Some?
    ensures var al := Known(anchors, n);
      var k := FindAlias(al, AnchorOf(anchors, id).value);
      k < |al| && al[k].index == id
  {
    KnownEntries(anchors, n);
    var al := Known(anchors, n);
    var k := FindAlias(al, AnchorOf(anchors, id).value);
    var j :| 0 <= j < |al| && al[j] == AliasData(AnchorOf(anchors, id).value, id);
    KnownEntry(anchors, n, k);
    AnchorsDiffer(anchors, id, al[k].index);
  }

  /** The next anchor is new. */
  lemma {:induction false} KnownRegister(anchors: seq<nat>, n: nat)
    requires Unique(anchors)
    ensures Register(Known(anchors, n), n + 1, AnchorOf(anchors, n + 1)) == Some(Known(anchors, n + 1))
  {
    var a, al := AnchorOf(anchors, n + 1), Known(anchors, n);
    if a.Some? {
      var k := FindAlias(al, a.value);
      if k < |al| {
        KnownEntry(anchors, n, k);
        AnchorsDiffer(anchors, n + 1, al[k].index);
      }
    } else {
      assert al + [] == al;
    }
  }

  /** What the dumper and the loader share about a table. */
  ghost predicate Reloadable(nodes: Table, anchors: seq<nat>) {
    Closed(nodes) && Tagged(nodes) && Unique(anchors) && |anchors| == |nodes|
  }

  /** The dumped events of a walk that meets the nodes in order place the same nodes again. */
  lemma {:induction false} Reload(nodes: Table, anchors: seq<nat>, base: nat, id: nat, n: nat)
    requires Reloadable(nodes, anchors) && 1 <= id <= |nodes| && base + n <= |nodes|
    requires Firsts(Unfold(nodes, UpTo(base), id)) == Range(base, n)
    requires forall x :: x in Agains(Unfold(nodes, UpTo(base), id)) ==> AnchorOf(anchors, x).Some?
    ensures var t := TreeOf(nodes, anchors, Unfold(nodes, UpTo(base), id));
      Even(t) && Place(t, Known(anchors, base), base) ==
      Some(Placed(nodes[base..base + n], id, Known(anchors, base + n)))
    decreases Unfold(nodes, UpTo(base), id), 1
  {
    hide Unfold, UnfoldAll, Firsts, FirstsAll, Agains, AgainsAll, TreeOf, TreesOf, Place, PlaceAll, Even, EvenAll,
         Known, Range, AnchorOf;
    if id <= base {
      ReloadAlias(nodes, anchors, base, id);
      RangeSize(base, n);
      assert n == 0 && nodes[base..base] == [];
    } else {
      ReloadNode(nodes, anchors, base, id, n);
    }
  }

  /** A node that is already placed comes as an alias. */
  lemma {:induction false} ReloadAlias(nodes: Table, anchors: seq<nat>, base: nat, id: nat)
    requires Unique(anchors) && 1 <= id <= base
    requires forall x :: x in Agains(Unfold(nodes, UpTo(base), id)) ==> AnchorOf(anchors, x).Some?
    ensures var w := Unfold(nodes, UpTo(base), id);
      var t := TreeOf(nodes, anchors, w);
      |Firsts(w)| == 0 && Even(t) && Place(t, Known(anchors, base), base) == Some(Placed([], id, Known(anchors, base)))
  {
    hide Known, AnchorOf;
    assert Unfold(nodes, UpTo(base), id) == Again(id);
    assert id in Agains(Again(id));
    KnownFind(anchors, base, id);
  }

  lemma {:induction false} ReloadNode(nodes: Table, anchors: seq<nat>, base: nat, id: nat, n: nat)
    requires Reloadable(nodes, anchors) && 1 <= id <= |nodes| && base + n <= |nodes| && id !in UpTo(base)
    requires Firsts(Unfold(nodes, UpTo(base), id)) == Range(base, n)
    requires forall x :: x in Agains(Unfold(nodes, UpTo(base), id)) ==> AnchorOf(anchors, x).Some?
    ensures var t := TreeOf(nodes, anchors, Unfold(nodes, UpTo(base), id));
      Even(t) && Place(t, Known(anchors, base), base) ==
      Some(Placed(nodes[base..base + n], id, Known(anchors, base + n)))
    decreases Unfold(nodes, UpTo(base), id), 0
  {
    hide Unfold, UnfoldAll, Firsts, FirstsAll, Agains, AgainsAll, TreeOf, TreesOf, Place, PlaceAll, Even, EvenAll,
         Known, Range, UpTo, Register, AnchorOf;
    var w := Unfold(nodes, UpTo(base), id);
    MeetsNext(nodes, base, id, n);
    ReloadAll(nodes, anchors, base + 1, Kids(nodes[base]), n - 1);
    KnownRegister(anchors, base);
    assert nodes[base].tag != "!";
    PlaceFirst(nodes, anchors, base, n, w.kids);
  }

  /** A node met first is the next one, and its children are met from there. */
  lemma {:induction false} MeetsNext(nodes: Table, base: nat, id: nat, n: nat)
    requires 1 <= id <= |nodes| && base + n <= |nodes| && id !in UpTo(base) && Closed(nodes)
    requires Firsts(Unfold(nodes, UpTo(base), id)) == Range(base, n)
    ensures id == base + 1 && 1 <= n && (nodes[base].ScalarNode? ==> n == 1)
    ensures var w := Unfold(nodes, UpTo(base), id);
      w == First(id, UnfoldAll(nodes, UpTo(base + 1), Kids(nodes[base]))) &&
      FirstsAll(w.kids) == Range(base + 1, n - 1) &&
      |w.kids| == |Kids(nodes[base])| && (forall x :: x in AgainsAll(w.kids) ==> x in Agains(w)) &&
      (forall j :: 0 <= j < |Kids(nodes[base])| ==> 1 <= Kids(nodes[base])[j] <= |nodes|)
  {
    hide Unfold, UnfoldAll, Firsts, FirstsAll, Agains, AgainsAll, Range;
    var kids := UnfoldAll(nodes, UpTo(base) + {id}, Kids(nodes[id - 1]));
    FirstMet(nodes, UpTo(base), id);
    assert id == base + 1 && 1 <= n by {
      RangeHead(base, n, id, FirstsAll(kids));
    }
    assert UpTo(base) + {id} == UpTo(base + 1);
    RangeOne(base, n - 1);
    assert ([id] + FirstsAll(kids))[1..] == FirstsAll(kids);
    if nodes[base].ScalarNode? {
      NoneMet(nodes, UpTo(base + 1));
      RangeSize(base + 1, n - 1);
    }
  }

  lemma {:induction false} FirstMet(nodes: Table, seen: set<nat>, id: nat)
    requires id !in seen && 1 <= id <= |nodes|
    ensures var kids := UnfoldAll(nodes, seen + {id}, Kids(nodes[id - 1]));
      var w := First(id, kids);
      Unfold(nodes, seen, id) == w && Firsts(w) == [id] + FirstsAll(kids) && Agains(w) == AgainsAll(kids)
  {
    hide UnfoldAll, FirstsAll, AgainsAll, Kids;
  }

  lemma {:induction false} NoneMet(nodes: Table, seen: set<nat>)
    ensures FirstsAll(UnfoldAll(nodes, seen, [])) == []
  {
  }

  lemma {:induction false} RangeHead(a: nat, n: nat, x: nat, rest: seq<nat>)
    requires Range(a, n) == [x] + rest
    ensures x == a + 1 && 1 <= n
  {
    assert ([x] + rest)[0] == x;
  }

  lemma {:induction false} RangeSize(a: nat, n: nat)
    ensures |Range(a, n)| == n
  {
  }

  lemma {:induction false} PlaceSequence(a: Option<string>, tag: string, kids: seq<Tree>, al: Aliases, al1: Aliases,
                                         base: nat, q: PlacedAll)
    requires Register(al, base + 1, a) == Some(al1) && EvenAll(kids) && PlaceAll(kids, al1, base + 1) == Some(q) &&
      tag != "!"
    ensures var t := SequenceTree(a, Some(tag), kids);
      Even(t) && Place(t, al, base) == Some(Placed([SequenceNode(tag, q.ids)] + q.nodes, base + 1, q.al))
  {
  }

  lemma {:induction false} PlaceMapping(a: Option<string>, tag: string, kids: seq<Tree>, al: Aliases, al1: Aliases,
                                        base: nat, q: PlacedAll, pairs: seq<Pair>)
    requires Register(al, base + 1, a) == Some(al1) && EvenAll(kids) && PlaceAll(kids, al1, base + 1) == Some(q) &&
      tag != "!"
    requires q.ids == Flat(pairs)
    ensures var t := MappingTree(a, Some(tag), kids);
      Even(t) && Place(t, al, base) == Some(Placed([MappingNode(tag, pairs)] + q.nodes, base + 1, q.al))
  {
    PairUpFlat(pairs);
  }

  lemma {:induction false} PlaceScalar(a: Option<string>, tag: string, text: string, al: Aliases, al1: Aliases,
                                       base: nat)
    requires Register(al, base + 1, a) == Some(al1) && tag != "!"
    ensures var t := ScalarTree(a, Some(tag), text);
      Even(t) && Place(t, al, base) == Some(Placed([ScalarNode(tag, text)], base + 1, al1))
  {
  }

  /** The node itself, once its children are placed. */
  lemma {:induction false} PlaceFirst(nodes: Table, anchors: seq<nat>, base: nat, n: nat, ws: seq<Walk>)
    requires base < |nodes| && nodes[base].tag != "!" && 1 <= n && base + n <= |nodes|
    requires Register(Known(anchors, base), base + 1, AnchorOf(anchors, base + 1)) == Some(Known(anchors, base + 1))
    requires |ws| == |Kids(nodes[base])|
    requires nodes[base].ScalarNode? ==> n == 1
    requires var ts := TreesOf(nodes, anchors, ws);
      EvenAll(ts) && PlaceAll(ts, Known(anchors, base + 1), base + 1) ==
      Some(PlacedAll(nodes[base + 1..base + n], Kids(nodes[base]), Known(anchors, base + n)))
    ensures var t := TreeOf(nodes, anchors, First(base + 1, ws));
      Even(t) && Place(t, Known(anchors, base), base) ==
      Some(Placed(nodes[base..base + n], base + 1, Known(anchors, base + n)))
  {
    hide Place, PlaceAll, Even, EvenAll, Known, Register, AnchorOf;
    var m, a, ts := nodes[base], AnchorOf(anchors, base + 1), TreesOf(nodes, anchors, ws);
    var al, al1 := Known(anchors, base), Known(anchors, base + 1);
    assert nodes[base..base + n] == [m] + nodes[base + 1..base + n];
    assert n == 1 ==> nodes[base..base + n] == [m];
    match m
    case ScalarNode(tag, text) => PlaceScalar(a, tag, text, al, al1, base);
    case SequenceNode(tag, _) => PlaceSequence(a, tag, ts, al, al1, base, PlaceAll(ts, al1, base + 1).value);
    case MappingNode(tag, pairs) => PlaceMapping(a, tag, ts, al, al1, base, PlaceAll(ts, al1, base + 1).value, pairs);
  }

  lemma {:induction false} PlaceCons(t: Tree, ts: seq<Tree>, al: Aliases, base: nat, a: Placed, b: PlacedAll)
    requires Even(t) && EvenAll(ts) && Place(t, al, base) == Some(a) && PlaceAll(ts, a.al, base + |a.nodes|) == Some(b)
    ensures EvenAll([t] + ts) && PlaceAll([t] + ts, al, base) ==
      Some(PlacedAll(a.nodes + b.nodes, [a.id] + b.ids, b.al))
  {
    assert ([t] + ts)[1..] == ts;
  }

  lemma {:induction false} WalkParts(nodes: Table, anchors: seq<nat>, s: set<nat>, ids: seq<nat>)
    requires ids != []
    ensures var w, ws := Unfold(nodes, s, ids[0]), UnfoldAll(nodes, s, ids);
      var rest := UnfoldAll(nodes, s + Met(w), ids[1..]);
      && ws == [w] + rest
      && FirstsAll(ws) == Firsts(w) + FirstsAll(rest) && AgainsAll(ws) == Agains(w) + AgainsAll(rest)
      && TreesOf(nodes, anchors, ws) == [TreeOf(nodes, anchors, w)] + TreesOf(nodes, anchors, rest)
  {
    var w, ws := Unfold(nodes, s, ids[0]), UnfoldAll(nodes, s, ids);
    assert ws[0] == w && ws[1..] == UnfoldAll(nodes, s + Met(w), ids[1..]);
  }

  /** Two runs of numbers that make up one. */
  lemma {:induction false} RangeCut(a: nat, n: nat, x: seq<nat>, y: seq<nat>)
    requires x + y == Range(a, n)
    ensures |x| <= n && x == Range(a, |x|) && y == Range(a + |x|, n - |x|)
  {
    assert |x + y| == n;
    RangeSplit(a, |x|, n - |x|);
    assert x == (x + y)[..|x|] && y == (x + y)[|x|..];
  }

  lemma {:induction false} ReloadNone(nodes: Table, anchors: seq<nat>, base: nat, n: nat)
    requires base + n <= |nodes| && FirstsAll(UnfoldAll(nodes, UpTo(base), [])) == Range(base, n)
    ensures n == 0
    ensures var ts := TreesOf(nodes, anchors, UnfoldAll(nodes, UpTo(base), []));
      EvenAll(ts) && PlaceAll(ts, Known(anchors, base), base) ==
      Some(PlacedAll(nodes[base..base], [], Known(anchors, base)))
  {
    assert UnfoldAll(nodes, UpTo(base), []) == [] && TreesOf(nodes, anchors, []) == [] && FirstsAll([]) == [];
    assert |Range(base, n)| == n;
    assert nodes[base..base] == [];
    hide UnfoldAll, TreesOf, FirstsAll, Range, UpTo, Known;
  }

  lemma {:induction false} ReloadAll(nodes: Table, anchors: seq<nat>, base: nat, ids: seq<nat>, n: nat)
    requires Reloadable(nodes, anchors) && base + n <= |nodes| && forall j :: 0 <= j < |ids| ==> 1 <= ids[j] <= |nodes|
    requires FirstsAll(UnfoldAll(nodes, UpTo(base), ids)) == Range(base, n)
    requires forall x :: x in AgainsAll(UnfoldAll(nodes, UpTo(base), ids)) ==> AnchorOf(anchors, x).Some?
    ensures var ts := TreesOf(nodes, anchors, UnfoldAll(nodes, UpTo(base), ids));
      EvenAll(ts) && PlaceAll(ts, Known(anchors, base), base) ==
      Some(PlacedAll(nodes[base..base + n], ids, Known(anchors, base + n)))
    decreases UnfoldAll(nodes, UpTo(base), ids), 2
  {
    hide Unfold, UnfoldAll, Firsts, FirstsAll, Agains, AgainsAll, TreeOf, TreesOf, Place, PlaceAll, Even, EvenAll,
         Known, Range, UpTo, Reloadable, AnchorOf;
    if ids == [] {
      ReloadNone(nodes, anchors, base, n);
    } else {
      WalkParts(nodes, anchors, UpTo(base), ids);
      var w := Unfold(nodes, UpTo(base), ids[0]);
      var k, rest := |Firsts(w)|, UnfoldAll(nodes, UpTo(base) + Met(w), ids[1..]);
      ghost var ws := UnfoldAll(nodes, UpTo(base), ids);
      assert ws[0] == w && ws[1..] == rest;
      RangeCut(base, n, Firsts(w), FirstsAll(rest));
      Reload(nodes, anchors, base, ids[0], k);
      MetRange(w, base, k);
      ReloadAll(nodes, anchors, base + k, ids[1..], n - k);
      var a := Placed(nodes[base..base + k], ids[0], Known(anchors, base + k));
      var b := PlacedAll(nodes[base + k..base + n], ids[1..], Known(anchors, base + n));
      PlaceCons(TreeOf(nodes, anchors, w), TreesOf(nodes, anchors, rest), Known(anchors, base), base, a, b);
      assert nodes[base..base + n] == a.nodes + b.nodes && ids == [ids[0]] + ids[1..];
    }
  }

  // ---------- the theorems ----------

  /** A table whose nodes are numbered in the order in which they are first met. */
  ghost predicate Normal(nodes: Table) {
    Firsts(RootWalk(nodes)) == Range(0, |nodes|)
  }

  lemma {:induction false} FinalUnique(nodes: Table)
    ensures var m := FinalMarks(nodes); |m.anchors| == |nodes| && Unique(m.anchors)
  {
    FinalSound(nodes);
  }

  /** A normal table comes back when it is dumped and loaded. */
  lemma {:induction false} DumpThenLoad(nodes: Table)
    requires Closed(nodes) && nodes != [] && Normal(nodes) && Tagged(nodes)
    ensures exists al :: Load(EMPTY, Dump(nodes)) == Ok(State(nodes, al, []))
  {
    var m, w := FinalMarks(nodes), RootWalk(nodes);
    FinalUnique(nodes);
    AliasesAnchored(nodes);
    forall x | x in Agains(w) ensures AnchorOf(m.anchors, x).Some? { }
    assert UpTo(0) == {};
    Reload(nodes, m.anchors, 0, 1, |nodes|);
    assert nodes[0..0 + |nodes|] == nodes;
    LoadDocument(DumpTree(nodes));
  }

  /** No loaded node has the tag "!". */
  lemma {:induction false} PlaceTagged(t: Tree, al: Aliases, base: nat)
    requires Even(t)
    ensures var r := Place(t, al, base); r.Some? ==> Tagged(r.value.nodes)
    decreases t, 1
  {
    match t
    case SequenceTree(a, tag, kids) =>
      var al1 := Register(al, base + 1, a);
      if al1.Some? { PlaceAllTagged(kids, al1.value, base + 1); }
    case MappingTree(a, tag, kids) =>
      var al1 := Register(al, base + 1, a);
      if al1.Some? { PlaceAllTagged(kids, al1.value, base + 1); }
    case _ =>
  }

  lemma {:induction false} PlaceAllTagged(ts: seq<Tree>, al: Aliases, base: nat)
    requires EvenAll(ts)
    ensures var r := PlaceAll(ts, al, base); r.Some? ==> Tagged(r.value.nodes)
    decreases ts, 0
  {
    if ts != [] {
      PlaceTagged(ts[0], al, base);
      var a := Place(ts[0], al, base);
      if a.Some? { PlaceAllTagged(ts[1..], a.value.al, base + |a.value.nodes|); }
    }
  }

  /** The references of a table part stay below `n`. */
  ghost predicate RefersBelow(nodes: Table, n: nat) {
    forall i, j :: 0 <= i < |nodes| && 0 <= j < |Kids(nodes[i])| ==> 1 <= Kids(nodes[i])[j] <= n
  }

  lemma {:induction false} RefersCons(n: Node, nodes: Table, bound: nat)
    requires RefersBelow(nodes, bound) && forall j :: 0 <= j < |Kids(n)| ==> 1 <= Kids(n)[j] <= bound
    ensures RefersBelow([n] + nodes, bound)
  {
  }

  lemma {:induction false} PlaceClosed(t: Tree, al: Aliases, base: nat)
    requires Even(t) && Bound(al, base)
    ensures var r := Place(t, al, base); r.Some? ==> RefersBelow(r.value.nodes, base + |r.value.nodes|)
    decreases t, 1
  {
    hide Place, PlaceAll, RefersBelow;
    var r := Place(t, al, base);
    if r.None? {
    } else if t.SequenceTree? || t.MappingTree? {
      var al1, n := CollectionPlaced(t, al, base);
      PlaceAllClosed(t.kids, al1, base + 1);
      PlaceAllBound(t.kids, al1, base + 1);
      var q := PlaceAll(t.kids, al1, base + 1).value;
      assert r.value.nodes == [n] + q.nodes;
      RefersCons(n, q.nodes, base + 1 + |q.nodes|);
    } else {
      LeafClosed(t, al, base);
    }
  }

  lemma {:induction false} LeafClosed(t: Tree, al: Aliases, base: nat)
    requires t.AliasTree? || t.ScalarTree?
    ensures var r := Place(t, al, base); r.Some? ==> RefersBelow(r.value.nodes, base + |r.value.nodes|)
  {
    var r := Place(t, al, base);
    if r.Some? && t.ScalarTree? {
      assert Kids(r.value.nodes[0]) == [];
    }
  }

  lemma {:induction false} PlaceAllClosed(ts: seq<Tree>, al: Aliases, base: nat)
    requires EvenAll(ts) && Bound(al, base)
    ensures var r := PlaceAll(ts, al, base); r.Some? ==> RefersBelow(r.value.nodes, base + |r.value.nodes|)
    decreases ts, 0
  {
    hide Place, PlaceAll, RefersBelow, Bound, Even;
    PlaceAllParts(ts, al, base);
    if ts == [] {
      RefersNone(base);
    } else {
      PlaceClosed(ts[0], al, base);
      PlaceBound(ts[0], al, base);
      var a := Place(ts[0], al, base);
      if a.Some? {
        PlaceAllClosed(ts[1..], a.value.al, base + |a.value.nodes|);
        var b := PlaceAll(ts[1..], a.value.al, base + |a.value.nodes|);
        if b.Some? {
          RefersJoin(a.value.nodes, b.value.nodes, base + |a.value.nodes|, base + |a.value.nodes| + |b.value.nodes|);
        }
      }
    }
  }

  function PlacedCons(t: Tree, ts: seq<Tree>, al: Aliases, base: nat): Option<PlacedAll>
    requires Even(t) && EvenAll(ts)
  {
    var a := Place(t, al, base);
    if a.None? then None
    else
      var b := PlaceAll(ts, a.value.al, base + |a.value.nodes|);
      if b.None? then None
      else Some(PlacedAll(a.value.nodes + b.value.nodes, [a.value.id] + b.value.ids, b.value.al))
  }

  lemma {:induction false} PlaceAllParts(ts: seq<Tree>, al: Aliases, base: nat)
    requires EvenAll(ts)
    ensures ts == [] ==> PlaceAll(ts, al, base) == Some(PlacedAll([], [], al))
    ensures ts != [] ==>
      Even(ts[0]) && EvenAll(ts[1..]) && PlaceAll(ts, al, base) == PlacedCons(ts[0], ts[1..], al, base)
  {
  }

  lemma {:induction false} RefersNone(n: nat)
    ensures RefersBelow([], n)
  {
  }

  lemma {:induction false} RefersJoin(a: Table, b: Table, m: nat, n: nat)
    requires RefersBelow(a, m) && RefersBelow(b, n) && m <= n
    ensures RefersBelow(a + b, n)
  {
    hide Kids;
  }

  /** What every loaded document is: not empty, closed, normal, and without "!" tags; and
      dumping it gives the events it was loaded from, with new names for the anchors that
      are referred to, without the others, and with the default tags filled in. */
  lemma {:induction false} LoadThenDump(t: Tree)
    requires Even(t) && Load(EMPTY, Events(t) + [DocumentEnd]).Ok?
    ensures var nodes := Load(EMPTY, Events(t) + [DocumentEnd]).st.nodes;
      && nodes != [] && Closed(nodes) && Normal(nodes) && Tagged(nodes)
      && exists ren :: Renaming(t, ren) && DumpTree(nodes) == Renamed(t, ren)
  {
    hide Load, Place, Events, Even, Closed, Normal, Tagged, Renaming, DumpTree, Renamed;
    LoadDocument(t);
    var nodes := Place(t, [], 0).value.nodes;
    RootPlaced(t);
    PlaceTagged(t, [], 0);
    LoadedClosed(t);
    var ren := DumpRenamed(t);
    assert Renaming(t, ren) && DumpTree(nodes) == Renamed(t, ren);
  }

  lemma {:induction false} LoadedClosed(t: Tree)
    requires Even(t) && Place(t, [], 0).Some?
    ensures Closed(Place(t, [], 0).value.nodes)
  {
    hide Place;
    PlaceClosed(t, [], 0);
  }

  /** The whole table of a loaded document. */
  lemma {:induction false} RootLoaded(t: Tree)
    requires Even(t) && Place(t, [], 0).Some?
    ensures var nodes, names := Place(t, [], 0).value.nodes, NamesOf(t);
      && Loaded(nodes, t, names, 0) && |names| == |nodes| && FirstHere(names, 0, |names|)
      && RootWalk(nodes) == WalkOf(t, names, 0) && Firsts(RootWalk(nodes)) == Range(0, |nodes|)
      && Agains(RootWalk(nodes)) == Targets(Used(t), names)
  {
    hide Place, Unfold, Firsts, Agains, WalkOf, NamesOf, Used, Targets, Range, FirstHere, UpTo;
    var nodes, names := Place(t, [], 0).value.nodes, NamesOf(t);
    assert nodes[0..0 + |nodes|] == nodes && names[0..0 + |names|] == names;
    assert Listed(names, 0) == [];
    UpToNone();
    RootPlaced(t);
    PlaceNames(t, names, 0);
    PlacedWalk(nodes, names, t, 0);
    WalkFirsts(t, names, 0);
    WalkAgains(t, names, 0);
  }

  lemma {:induction false} DumpRenamed(t: Tree) returns (ren: map<string, string>)
    requires Even(t) && Place(t, [], 0).Some?
    ensures var nodes := Place(t, [], 0).value.nodes;
      Normal(nodes) && Renaming(t, ren) && DumpTree(nodes) == Renamed(t, ren)
  {
    hide Place, Unfold, Firsts, Agains, WalkOf, NamesOf, Used, Targets, Range, FirstHere, TreeOf, Renamed, MarkAll,
         Visits, Fits, Pointed, Renaming, Closed;
    var nodes, names := Place(t, [], 0).value.nodes, NamesOf(t);
    var anchors := FinalMarks(nodes).anchors;
    RootLoaded(t);
    RootPlaced(t);
    LoadedClosed(t);
    AnchorsPointed(nodes, names, Used(t));
    FinalUnique(nodes);
    ren := NewNames(Used(t), names, anchors);
    NewNamesFit(Used(t), names, anchors);
    NewNamesDiffer(t, names, anchors);
    WalkTree(nodes, names, anchors, ren, t, 0);
  }

  lemma {:induction false} UpToNone()
    ensures UpTo(0) == {}
  {
  }

  lemma {:induction false} RootPlaced(t: Tree)
    requires Even(t) && Place(t, [], 0).Some?
    ensures Place(t, [], 0).value.nodes != [] && Place(t, [], 0).value.id == 1
  {
  }

  /** Dumping and loading gives a table back if and only if the table is normal and free
      of "!" tags; every table the loader builds is. */
  lemma {:induction false} DumpThenLoadIff(nodes: Table)
    requires Closed(nodes) && nodes != []
    ensures (exists al :: Load(EMPTY, Dump(nodes)) == Ok(State(nodes, al, []))) <==> Normal(nodes) && Tagged(nodes)
  {
    if Normal(nodes) && Tagged(nodes) {
      DumpThenLoad(nodes);
    }
    if exists al :: Load(EMPTY, Dump(nodes)) == Ok(State(nodes, al, [])) {
      DumpEven(nodes, FinalMarks(nodes).anchors, {}, 1);
      LoadThenDump(DumpTree(nodes));
    }
  }

  /** What is dumped is a document: every key has its value. */
  lemma {:induction false} DumpEven(nodes: Table, anchors: seq<nat>, seen: set<nat>, id: nat)
    ensures Even(TreeOf(nodes, anchors, Unfold(nodes, seen, id)))
    decreases All(nodes) - seen, 0
  {
    if id !in seen && 1 <= id <= |nodes| {
      assert id in All(nodes) - seen && id !in All(nodes) - (seen + {id});
      DumpAllEven(nodes, anchors, seen + {id}, Kids(nodes[id - 1]));
    }
  }

  lemma {:induction false} DumpAllEven(nodes: Table, anchors: seq<nat>, seen: set<nat>, ids: seq<nat>)
    ensures EvenAll(TreesOf(nodes, anchors, UnfoldAll(nodes, seen, ids)))
    decreases All(nodes) - seen, |ids|
  {
    if ids != [] {
      var w := Unfold(nodes, seen, ids[0]);
      assert All(nodes) - (seen + Met(w)) <= All(nodes) - seen;
      DumpEven(nodes, anchors, seen, ids[0]);
      DumpAllEven(nodes, anchors, seen + Met(w), ids[1..]);
      WalkParts(nodes, anchors, seen, ids);
      var t, ts := TreeOf(nodes, anchors, w), TreesOf(nodes, anchors, UnfoldAll(nodes, seen + Met(w), ids[1..]));
      assert ([t] + ts)[1..] == ts;
    }
  }

  /** Loader and dumper undo each other: a document that loads is dumped as it was, up to a
      renaming of its anchors, and loading that gives the same table again. */
  lemma {:induction false} RoundTrip(t: Tree)
    requires Even(t) && Load(EMPTY, Events(t) + [DocumentEnd]).Ok?
    ensures var nodes := Load(EMPTY, Events(t) + [DocumentEnd]).st.nodes;
      && (exists ren :: Renaming(t, ren) && DumpTree(nodes) == Renamed(t, ren))
      && exists al :: Load(EMPTY, Dump(nodes)) == Ok(State(nodes, al, []))
  {
    LoadThenDump(t);
    DumpThenLoad(Load(EMPTY, Events(t) + [DocumentEnd]).st.nodes);
  }

  /** A sequence whose second item stands in front of its first one in the table, and a
      scalar with the tag "!": dumping and loading gives neither back. */
  lemma {:induction false} NotGivenBack()
    ensures var nodes := [SequenceNode("s", [3, 2]), ScalarNode("a", "1"), ScalarNode("b", "2")];
      Closed(nodes) && !exists al :: Load(EMPTY, Dump(nodes)) == Ok(State(nodes, al, []))
    ensures var nodes := [ScalarNode("!", "1")];
      Closed(nodes) && !exists al :: Load(EMPTY, Dump(nodes)) == Ok(State(nodes, al, []))
  {
    OutOfOrder();
    DumpThenLoadIff([SequenceNode("s", [3, 2]), ScalarNode("a", "1"), ScalarNode("b", "2")]);
    var odd := [ScalarNode("!", "1")];
    assert odd[0].tag == "!";
    DumpThenLoadIff(odd);
  }

  lemma {:induction false} OutOfOrder()
    ensures var nodes := [SequenceNode("s", [3, 2]), ScalarNode("a", "1"), ScalarNode("b", "2")];
      Closed(nodes) && !Normal(nodes)
  {
    var nodes := [SequenceNode("s", [3, 2]), ScalarNode("a", "1"), ScalarNode("b", "2")];
    hide Unfold, UnfoldAll;
    UnfoldNode(nodes, {}, 1);
    UnfoldFirst(nodes, {} + {1}, [3, 2]);
    UnfoldNode(nodes, {} + {1}, 3);
    assert Firsts(RootWalk(nodes))[1] == 3;
    assert Range(0, 3)[1] == 2;
  }

  lemma {:induction false} UnfoldNode(nodes: Table, seen: set<nat>, id: nat)
    requires id !in seen && 1 <= id <= |nodes|
    ensures Unfold(nodes, seen, id) == First(id, UnfoldAll(nodes, seen + {id}, Kids(nodes[id - 1])))
  {
  }

  lemma {:induction false} UnfoldFirst(nodes: Table, seen: set<nat>, ids: seq<nat>)
    requires ids != []
    ensures UnfoldAll(nodes, seen, ids) != [] && UnfoldAll(nodes, seen, ids)[0] == Unfold(nodes, seen, ids[0])
  {
  }
}
