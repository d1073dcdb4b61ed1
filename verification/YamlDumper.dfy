/** The dumper of dumper.c: counts references, gives anchors to nodes that are referred
    to twice, and emits every node once and aliases after that. */
module YamlDumper {
  import opened Basics
  import opened YamlNodes
  import opened YamlWalk

  // ---------- anchors ----------

  function Digit(d: nat): char
    requires d < 10
  {
    '0' + d as char
  }

  function Decimal(n: nat): string {
    if n < 10 then [Digit(n)] else Decimal(n / 10) + [Digit(n % 10)]
  }

  /** `sprintf` with the template "id%03d". */
  function AnchorName(n: nat): string {
    "id" + (Zeros(n) + Decimal(n))
  }

  function Zeros(n: nat): string {
    if n < 10 then "00" else if n < 100 then "0" else ""
  }

  function ReadDecimal(s: string): int {
    if s == [] then 0 else 10 * ReadDecimal(s[..|s| - 1]) + (s[|s| - 1] as int - '0' as int)
  }

  lemma {:induction false} ZerosRead()
    ensures ReadDecimal("") == ReadDecimal("0") == ReadDecimal("00") == 0
  {
    assert "0"[..0] == "" && "00"[..1] == "0";
  }

  lemma {:induction false} DecimalReads(zeros: string, n: nat)
    requires ReadDecimal(zeros) == 0
    ensures ReadDecimal(zeros + Decimal(n)) == n
  {
    var s := zeros + Decimal(n);
    if n < 10 {
      assert s[..|s| - 1] == zeros;
    } else {
      DecimalReads(zeros, n / 10);
      assert s[..|s| - 1] == zeros + Decimal(n / 10);
    }
  }

  /** Different anchors have different names. */
  lemma {:induction false} AnchorNamesDiffer(a: nat, b: nat)
    requires AnchorName(a) == AnchorName(b)
    ensures a == b
  {
    assert AnchorName(a)[2..] == Zeros(a) + Decimal(a);
    assert AnchorName(b)[2..] == Zeros(b) + Decimal(b);
    ZerosRead();
    DecimalReads(Zeros(a), a);
    DecimalReads(Zeros(b), b);
  }

  /** The number in decimal behind "id", with three digits or more and no zero too many. */
  lemma {:induction false} AnchorForm(n: nat)
    ensures var s := AnchorName(n);
      && 5 <= |s| && s[..2] == "id" && ReadDecimal(s[2..]) == n
      && (forall i :: 2 <= i < |s| ==> '0' <= s[i] <= '9')
      && (5 < |s| ==> s[2] != '0')
  {
    var digits := Zeros(n) + Decimal(n);
    assert AnchorName(n)[..2] == "id" && AnchorName(n)[2..] == digits;
    assert forall i :: 2 <= i < |AnchorName(n)| ==> AnchorName(n)[i] == digits[i - 2];
    ZerosRead();
    DecimalReads(Zeros(n), n);
    DecimalForm(n);
    assert n < 10 ==> |Decimal(n)| == 1;
    assert 10 <= n < 100 ==> |Decimal(n)| == 2;
  }

  lemma {:induction false} DecimalForm(n: nat)
    ensures Decimal(n) != [] && (n > 0 ==> Decimal(n)[0] != '0') && (100 <= n ==> 3 <= |Decimal(n)|)
    ensures 10 <= n ==> 2 <= |Decimal(n)|
    ensures forall i :: 0 <= i < |Decimal(n)| ==> '0' <= Decimal(n)[i] <= '9'
  {
    if n >= 10 {
      DecimalForm(n / 10);
    }
  }

  // ---------- counting references ----------

  datatype Marks = Marks(refs: seq<nat>, anchors: seq<nat>, last: nat)

  function NoMarks(n: nat): Marks {
    Marks(seq(n, _ => 0), seq(n, _ => 0), 0)
  }

  predicate Sized(m: Marks, n: nat) {
    |m.refs| == |m.anchors| == n
  }

  /** One more reference; the second one brings an anchor. */
  function Mark(m: Marks, id: nat): Marks {
    if !(1 <= id <= |m.refs|) || |m.anchors| != |m.refs| then m
    else
      var r := m.refs[id - 1] + 1;
      if r == 2 then Marks(m.refs[id - 1 := r], m.anchors[id - 1 := m.last + 1], m.last + 1)
      else m.(refs := m.refs[id - 1 := r])
  }

  function MarkAll(m: Marks, ids: seq<nat>): Marks
    decreases |ids|
  {
    if ids == [] then m else MarkAll(Mark(m, ids[0]), ids[1..])
  }

  lemma {:induction false} MarkAllAppend(m: Marks, a: seq<nat>, b: seq<nat>)
    ensures MarkAll(m, a + b) == MarkAll(MarkAll(m, a), b)
    decreases |a|
  {
    if a == [] {
      assert a + b == b;
    } else {
      assert (a + b)[1..] == a[1..] + b && (a + b)[0] == a[0];
      MarkAllAppend(Mark(m, a[0]), a[1..], b);
    }
  }

  /** Anchors go to the nodes with two references or more, each its own. */
  ghost predicate Sound(m: Marks) {
    && |m.refs| == |m.anchors|
    && (forall i {:trigger m.anchors[i]} :: 0 <= i < |m.refs| ==>
         (m.anchors[i] != 0 <==> m.refs[i] >= 2) && m.anchors[i] <= m.last)
    && (forall i, j :: 0 <= i < j < |m.refs| && m.anchors[i] != 0 ==> m.anchors[i] != m.anchors[j])
  }

  lemma {:induction false} MarkSound(m: Marks, id: nat)
    requires Sound(m)
    ensures Sound(Mark(m, id)) && |Mark(m, id).refs| == |m.refs|
  {
  }

  /** The reference counts are the numbers of visits. */
  lemma {:induction false} MarkAllCounts(m: Marks, ids: seq<nat>)
    requires Sound(m)
    ensures var r := MarkAll(m, ids);
      Sound(r) && |r.refs| == |m.refs| &&
      forall i :: 0 <= i < |r.refs| ==> r.refs[i] == m.refs[i] + multiset(ids)[i + 1]
    decreases |ids|
  {
    if ids != [] {
      MarkSound(m, ids[0]);
      MarkAllCounts(Mark(m, ids[0]), ids[1..]);
      assert ids == [ids[0]] + ids[1..];
    }
  }

  // ---------- the emitted events ----------

  function AnchorOf(anchors: seq<nat>, id: nat): Option<string> {
    if 1 <= id <= |anchors| && anchors[id - 1] != 0 then Some(AnchorName(anchors[id - 1])) else None
  }

  /** The tree of events that the dumper emits along a walk. */
  function TreeOf(nodes: Table, anchors: seq<nat>, w: Walk): Tree
    decreases w, 1
  {
    var a := AnchorOf(anchors, w.id);
    match w
    case Again(id) => AliasTree(if a.Some? then a.value else "")
    case First(id, kids) =>
      if !(1 <= id <= |nodes|) then AliasTree("")
      else
        match nodes[id - 1]
        case ScalarNode(tag, v) => ScalarTree(a, Some(tag), v)
        case SequenceNode(tag, _) => SequenceTree(a, Some(tag), TreesOf(nodes, anchors, kids))
        case MappingNode(tag, _) => MappingTree(a, Some(tag), TreesOf(nodes, anchors, kids))
  }

  function TreesOf(nodes: Table, anchors: seq<nat>, ws: seq<Walk>): (ts: seq<Tree>)
    ensures |ts| == |ws|
    decreases ws, 0
  {
    if ws == [] then [] else [TreeOf(nodes, anchors, ws[0])] + TreesOf(nodes, anchors, ws[1..])
  }

  /** The dumper's walk through a document starts at its first node. */
  ghost function RootWalk(nodes: Table): Walk {
    Unfold(nodes, {}, 1)
  }

  ghost function FinalMarks(nodes: Table): Marks {
    MarkAll(NoMarks(|nodes|), Visits(RootWalk(nodes)))
  }

  ghost function DumpTree(nodes: Table): Tree {
    TreeOf(nodes, FinalMarks(nodes).anchors, RootWalk(nodes))
  }

  /** All events of a document up to its end. */
  ghost function Dump(nodes: Table): seq<Event> {
    Events(DumpTree(nodes)) + [DocumentEnd]
  }

  // ---------- what is promised of any table ----------

  /** The nodes met from the root: the least set that contains it and the references of
      its members. */
  lemma {:induction false} EmittedAreReachable(nodes: Table)
    requires Closed(nodes) && nodes != []
    ensures var met := Met(RootWalk(nodes));
      && 1 in met && ClosedUnder(nodes, met)
      && (forall s :: 1 in s && ClosedUnder(nodes, s) ==> met <= s)
      && Distinct(Firsts(RootWalk(nodes)))
  {
    var w := RootWalk(nodes);
    MetOnce(nodes, {}, 1);
    MetCovers(nodes, {}, 1);
    forall s | 1 in s && ClosedUnder(nodes, s) ensures Met(w) <= s {
      MetReachable(nodes, {}, 1, s);
    }
    assert {} + Met(w) == Met(w);
  }

  /** The references counted for a node: those from emitted nodes, and one for the root. */
  lemma {:induction false} ReferencesCounted(nodes: Table, id: nat)
    requires 1 <= id <= |nodes|
    ensures var m := FinalMarks(nodes);
      && |m.refs| == |m.anchors| == |nodes|
      && m.refs[id - 1] == multiset(KidsOf(nodes, Firsts(RootWalk(nodes))))[id] + (if id == 1 then 1 else 0)
      && (m.anchors[id - 1] != 0 <==> m.refs[id - 1] >= 2)
  {
    var w := RootWalk(nodes);
    MarkAllCounts(NoMarks(|nodes|), Visits(w));
    VisitsAreReferences(nodes, {}, 1);
  }

  lemma {:induction false} FinalSound(nodes: Table)
    ensures Sound(FinalMarks(nodes)) && |FinalMarks(nodes).refs| == |nodes|
  {
    MarkAllCounts(NoMarks(|nodes|), Visits(RootWalk(nodes)));
  }

  /** Every alias names a node that was emitted before it and has an anchor. */
  lemma {:induction false} AliasesAnchored(nodes: Table)
    requires Closed(nodes) && nodes != []
    ensures var w, m := RootWalk(nodes), FinalMarks(nodes);
      && InOrder(w, {})
      && forall x :: x in Agains(w) ==> 1 <= x <= |nodes| == |m.anchors| && m.anchors[x - 1] != 0
  {
    var w, m := RootWalk(nodes), FinalMarks(nodes);
    UnfoldInOrder(nodes, {}, 1);
    AgainsMet(w, {});
    MetOnce(nodes, {}, 1);
    VisitsSplit(w);
    MarkAllCounts(NoMarks(|nodes|), Visits(w));
    forall x | x in Agains(w) ensures 1 <= x <= |nodes| && m.anchors[x - 1] != 0 {
      assert x in Met(w);
      assert x in Firsts(w);
      assert x in multiset(Firsts(w)) && x in multiset(Agains(w));
    }
  }

  // ---------- the dumper itself ----------

  class Emitter {
    const nodes: Table
    var references: seq<nat>
    var anchors: seq<nat>
    var lastAnchorId: nat
    var serialized: set<nat>
    /** The start and the end of the stream were emitted. */
    var isOpen: bool
    var isClosed: bool
    var out: seq<Event>

    ghost function GetMarks(): Marks
      reads this
    {
      Marks(references, anchors, lastAnchorId)
    }

    /** The nodes with a reference. */
    ghost function Referenced(): set<nat>
      reads this
    {
      ReferencedIn(references)
    }

    constructor (nodes: Table)
      ensures this.nodes == nodes && GetMarks() == NoMarks(|nodes|) && serialized == {} && out == []
      ensures !isOpen && !isClosed
    {
      this.nodes := nodes;
      references, anchors, lastAnchorId := seq(|nodes|, _ => 0), seq(|nodes|, _ => 0), 0;
      serialized, isOpen, isClosed, out := {}, false, false, [];
    }

    /** `yaml_emitter_anchor_node`. */
    method AnchorNode(index: nat)
      requires Closed(nodes) && 1 <= index <= |nodes| && Sized(GetMarks(), |nodes|)
      modifies this`references, this`anchors, this`lastAnchorId
      ensures Sized(GetMarks(), |nodes|)
      ensures GetMarks() == MarkAll(old(GetMarks()), Visits(Unfold(nodes, old(Referenced()), index)))
      ensures Referenced() == old(Referenced()) + Met(Unfold(nodes, old(Referenced()), index))
      decreases All(nodes) - Referenced(), 0
    {
      ghost var m, s := GetMarks(), Referenced();
      OneReference(nodes, m, index);
      hide Unfold, Visits, MarkAll, Mark, ReferencedIn, Met;
      references := references[index - 1 := references[index - 1] + 1];
      if references[index - 1] == 1 {
        AnchorAll(Kids(nodes[index - 1]));
      } else if references[index - 1] == 2 {
        lastAnchorId := lastAnchorId + 1;
        anchors := anchors[index - 1 := lastAnchorId];
      }
    }

    /** The loops over the items of a sequence and the pairs of a mapping. */
    method AnchorAll(ids: seq<nat>)
      requires Closed(nodes) && Sized(GetMarks(), |nodes|) && forall j :: 0 <= j < |ids| ==> 1 <= ids[j] <= |nodes|
      modifies this`references, this`anchors, this`lastAnchorId
      ensures Sized(GetMarks(), |nodes|)
      ensures GetMarks() == MarkAll(old(GetMarks()), VisitsAll(UnfoldAll(nodes, old(Referenced()), ids)))
      ensures Referenced() == old(Referenced()) + MetAll(UnfoldAll(nodes, old(Referenced()), ids))
      decreases All(nodes) - Referenced(), |ids| + 1
    {
      hide Unfold, UnfoldAll, Visits, VisitsAll, MarkAll, ReferencedIn, Met, MetAll, Closed;
      ghost var m, s := GetMarks(), Referenced();
      ghost var ws := UnfoldAll(nodes, s, ids);
      assert ids[0..] == ids;
      var i := 0;
      while i < |ids|
        invariant i <= |ids| && Sized(GetMarks(), |nodes|) && s <= Referenced()
        invariant MarkAll(GetMarks(), VisitsAll(UnfoldAll(nodes, Referenced(), ids[i..]))) == MarkAll(m, VisitsAll(ws))
        invariant Referenced() + MetAll(UnfoldAll(nodes, Referenced(), ids[i..])) == s + MetAll(ws)
      {
        UnfoldCons(nodes, GetMarks(), Referenced(), ids[i..]);
        assert ids[i..][0] == ids[i] && ids[i..][1..] == ids[i + 1..];
        assert All(nodes) - Referenced() <= All(nodes) - s;
        AnchorNode(ids[i]);
        i := i + 1;
      }
      UnfoldNone(nodes, GetMarks(), Referenced());
    }

    /** `yaml_emitter_dump_node` with the functions for the four kinds of events. */
    method DumpNode(index: nat)
      requires Closed(nodes) && 1 <= index <= |nodes|
      modifies this`serialized, this`out
      ensures var w := Unfold(nodes, old(serialized), index);
        out == old(out) + Events(TreeOf(nodes, anchors, w)) && serialized == old(serialized) + Met(w)
      decreases All(nodes) - serialized, 0
    {
      hide Unfold, UnfoldAll, TreeOf, TreesOf, Events, EventsAll, Met, MetAll, Closed, Kids, All;
      ghost var s, o := serialized, out;
      DumpStep(nodes, anchors, s, index);
      KidsThere(nodes, index);
      OneSeen(nodes, s, index);
      var anchor := AnchorOf(anchors, index);
      if index in serialized {
        out := out + [Alias(if anchor.Some? then anchor.value else "")];
        assert serialized + {} == serialized;
        return;
      }
      serialized := serialized + {index};
      match nodes[index - 1]
      case ScalarNode(tag, v) =>
        out := out + [Scalar(anchor, Some(tag), v)];
      case SequenceNode(tag, items) =>
        out := out + [SequenceStart(anchor, Some(tag))];
        ghost var ws := UnfoldAll(nodes, serialized, items);
        DumpAll(items);
        out := out + [SequenceEnd];
        Bracket(o, [SequenceStart(anchor, Some(tag))], EventsAll(TreesOf(nodes, anchors, ws)), [SequenceEnd]);
      case MappingNode(tag, pairs) =>
        out := out + [MappingStart(anchor, Some(tag))];
        ghost var ws := UnfoldAll(nodes, serialized, Flat(pairs));
        DumpAll(Flat(pairs));
        out := out + [MappingEnd];
        Bracket(o, [MappingStart(anchor, Some(tag))], EventsAll(TreesOf(nodes, anchors, ws)), [MappingEnd]);
    }

    /** The loops over the items of a sequence and the pairs of a mapping. */
    method DumpAll(ids: seq<nat>)
      requires Closed(nodes) && forall j :: 0 <= j < |ids| ==> 1 <= ids[j] <= |nodes|
      modifies this`serialized, this`out
      ensures var ws := UnfoldAll(nodes, old(serialized), ids);
        out == old(out) + EventsAll(TreesOf(nodes, anchors, ws)) && serialized == old(serialized) + MetAll(ws)
      decreases All(nodes) - serialized, |ids| + 1
    {
      hide Unfold, UnfoldAll, TreeOf, TreesOf, Events, EventsAll, Met, MetAll, Closed;
      ghost var o, s := out, serialized;
      ghost var ws := UnfoldAll(nodes, s, ids);
      assert ids[0..] == ids;
      var i := 0;
      while i < |ids|
        invariant i <= |ids| && s <= serialized
        invariant out + EventsAll(TreesOf(nodes, anchors, UnfoldAll(nodes, serialized, ids[i..]))) ==
          o + EventsAll(TreesOf(nodes, anchors, ws))
        invariant serialized + MetAll(UnfoldAll(nodes, serialized, ids[i..])) == s + MetAll(ws)
      {
        DumpCons(nodes, anchors, out, serialized, ids[i..]);
        assert ids[i..][0] == ids[i] && ids[i..][1..] == ids[i + 1..];
        assert All(nodes) - serialized <= All(nodes) - s;
        DumpNode(ids[i]);
        i := i + 1;
      }
      DumpNone(nodes, anchors, out, serialized);
    }

    /** `yaml_emitter_dump`: a document without nodes ends the stream. */
    method DumpDocument()
      requires Closed(nodes) && GetMarks() == NoMarks(|nodes|) && serialized == {} && out == []
      modifies this
      ensures isOpen && (nodes == [] ==> isClosed && out == [])
      ensures nodes != [] ==> isClosed == old(isClosed) && out == Dump(nodes)
    {
      isOpen := true;
      if nodes == [] {
        isClosed := true;
        return;
      }
      NothingReferenced(|nodes|);
      AnchorNode(1);
      DumpNode(1);
      out := out + [DocumentEnd];
    }
  }

  lemma {:induction false} KidsThere(nodes: Table, id: nat)
    requires Closed(nodes) && 1 <= id <= |nodes|
    ensures var ks := Kids(nodes[id - 1]); forall j :: 0 <= j < |ks| ==> 1 <= ks[j] <= |nodes|
    ensures nodes[id - 1].SequenceNode? ==> Kids(nodes[id - 1]) == nodes[id - 1].items
    ensures nodes[id - 1].MappingNode? ==> Kids(nodes[id - 1]) == Flat(nodes[id - 1].pairs)
  {
  }

  lemma {:induction false} OneSeen(nodes: Table, s: set<nat>, id: nat)
    requires 1 <= id <= |nodes|
    ensures id !in s ==> All(nodes) - (s + {id}) < All(nodes) - s
  {
    assert id in All(nodes);
  }

  lemma {:induction false} NothingReferenced(n: nat)
    ensures ReferencedIn(NoMarks(n).refs) == {}
  {
  }

  lemma {:induction false} Bracket(o: seq<Event>, a: seq<Event>, b: seq<Event>, c: seq<Event>)
    ensures o + a + b + c == o + (a + b + c)
  {
  }

  /** What one call of the dumper emits. */
  lemma {:induction false} DumpStep(nodes: Table, anchors: seq<nat>, s: set<nat>, id: nat)
    requires 1 <= id <= |nodes|
    ensures var w, a := Unfold(nodes, s, id), AnchorOf(anchors, id);
      var es, ws := Events(TreeOf(nodes, anchors, w)), UnfoldAll(nodes, s + {id}, Kids(nodes[id - 1]));
      && (id in s ==> es == [Alias(if a.Some? then a.value else "")] && Met(w) == {})
      && (id !in s ==>
            && (All(nodes) - (s + {id})) < (All(nodes) - s)
            && s + Met(w) == s + {id} + MetAll(ws)
            && var n, inner := nodes[id - 1], EventsAll(TreesOf(nodes, anchors, ws));
            && (n.ScalarNode? ==> es == [Scalar(a, Some(n.tag), n.text)] && MetAll(ws) == {})
            && (n.SequenceNode? ==> es == [SequenceStart(a, Some(n.tag))] + inner + [SequenceEnd])
            && (n.MappingNode? ==> es == [MappingStart(a, Some(n.tag))] + inner + [MappingEnd]))
  {
    if id !in s {
      assert id in All(nodes) - s && id !in All(nodes) - (s + {id});
      var ws := UnfoldAll(nodes, s + {id}, Kids(nodes[id - 1]));
      assert Met(First(id, ws)) == {id} + MetAll(ws);
    }
  }

  lemma {:induction false} DumpCons(nodes: Table, anchors: seq<nat>, o: seq<Event>, s: set<nat>, ids: seq<nat>)
    requires ids != []
    ensures var w, ws := Unfold(nodes, s, ids[0]), UnfoldAll(nodes, s, ids);
      var rest := UnfoldAll(nodes, s + Met(w), ids[1..]);
      && o + EventsAll(TreesOf(nodes, anchors, ws)) ==
         o + Events(TreeOf(nodes, anchors, w)) + EventsAll(TreesOf(nodes, anchors, rest))
      && s + MetAll(ws) == s + Met(w) + MetAll(rest)
  {
    hide Unfold, UnfoldAll, TreeOf, TreesOf, Events, EventsAll, Met, MetAll;
    var w := Unfold(nodes, s, ids[0]);
    var rest := UnfoldAll(nodes, s + Met(w), ids[1..]);
    FirstChild(nodes, s, ids);
    ConsTrees(nodes, anchors, w, rest);
    ConsEvents(o, TreeOf(nodes, anchors, w), TreesOf(nodes, anchors, rest));
    ConsMet(w, rest);
    assert s + (Met(w) + MetAll(rest)) == s + Met(w) + MetAll(rest);
  }

  lemma {:induction false} FirstChild(nodes: Table, s: set<nat>, ids: seq<nat>)
    requires ids != []
    ensures var w := Unfold(nodes, s, ids[0]); UnfoldAll(nodes, s, ids) == [w] + UnfoldAll(nodes, s + Met(w), ids[1..])
  {
    hide Unfold, Met;
  }

  lemma {:induction false} ConsTrees(nodes: Table, anchors: seq<nat>, w: Walk, rest: seq<Walk>)
    ensures TreesOf(nodes, anchors, [w] + rest) == [TreeOf(nodes, anchors, w)] + TreesOf(nodes, anchors, rest)
  {
    hide TreeOf;
    assert ([w] + rest)[1..] == rest;
  }

  lemma {:induction false} ConsEvents(o: seq<Event>, t: Tree, ts: seq<Tree>)
    ensures o + EventsAll([t] + ts) == o + Events(t) + EventsAll(ts)
  {
    hide Events;
    assert ([t] + ts)[1..] == ts;
    assert o + (Events(t) + EventsAll(ts)) == o + Events(t) + EventsAll(ts);
  }

  lemma {:induction false} ConsMet(w: Walk, rest: seq<Walk>)
    ensures MetAll([w] + rest) == Met(w) + MetAll(rest)
  {
    hide Firsts;
    assert ([w] + rest)[1..] == rest;
  }

  lemma {:induction false} DumpNone(nodes: Table, anchors: seq<nat>, o: seq<Event>, s: set<nat>)
    ensures o + EventsAll(TreesOf(nodes, anchors, UnfoldAll(nodes, s, []))) == o
    ensures s + MetAll(UnfoldAll(nodes, s, [])) == s
  {
    assert o + [] == o;
  }

  /** The nodes with a reference. */
  ghost function ReferencedIn(refs: seq<nat>): set<nat> {
    set i | 0 <= i < |refs| && refs[i] > 0 :: i + 1
  }

  lemma {:induction false} MoreReferenced(refs: seq<nat>, id: nat)
    requires 1 <= id <= |refs|
    ensures ReferencedIn(refs[id - 1 := refs[id - 1] + 1]) == ReferencedIn(refs) + {id}
    ensures id in ReferencedIn(refs) <==> refs[id - 1] > 0
  {
    InReferenced(refs);
    InReferenced(refs[id - 1 := refs[id - 1] + 1]);
  }

  /** The first reference to node `id`. */
  lemma {:induction false} FirstReference(nodes: Table, m: Marks, s: set<nat>, id: nat)
    requires 1 <= id <= |nodes| && Sized(m, |nodes|) && m.refs[id - 1] == 0 && id !in s
    ensures (All(nodes) - (s + {id})) < (All(nodes) - s)
    ensures var w, ws := Unfold(nodes, s, id), UnfoldAll(nodes, s + {id}, Kids(nodes[id - 1]));
      && MarkAll(m, Visits(w)) == MarkAll(m.(refs := m.refs[id - 1 := 1]), VisitsAll(ws))
      && s + Met(w) == s + {id} + MetAll(ws)
  {
    assert id in All(nodes) - s && id !in All(nodes) - (s + {id});
    var ws := UnfoldAll(nodes, s + {id}, Kids(nodes[id - 1]));
    assert Visits(First(id, ws))[1..] == VisitsAll(ws);
    assert Met(First(id, ws)) == {id} + MetAll(ws);
  }

  /** A further reference to node `id`. */
  lemma {:induction false} OtherReference(nodes: Table, m: Marks, s: set<nat>, id: nat)
    requires 1 <= id <= |nodes| && Sized(m, |nodes|) && m.refs[id - 1] >= 1 && id in s
    ensures MarkAll(m, Visits(Unfold(nodes, s, id))) == Mark(m, id)
    ensures s + Met(Unfold(nodes, s, id)) == s + {id}
  {
    assert Met(Again(id)) == {};
    assert MarkAll(m, [id]) == Mark(m, id);
  }

  /** One reference to node `id`. */
  lemma {:induction false} OneReference(nodes: Table, m: Marks, id: nat)
    requires 1 <= id <= |nodes| && Sized(m, |nodes|)
    ensures var s := ReferencedIn(m.refs);
      var w := Unfold(nodes, s, id);
      var refs := m.refs[id - 1 := m.refs[id - 1] + 1];
      && ReferencedIn(refs) == s + {id}
      && (m.refs[id - 1] == 0 ==>
            && (All(nodes) - ReferencedIn(refs)) < (All(nodes) - s)
            && var ws := UnfoldAll(nodes, s + {id}, Kids(nodes[id - 1]));
            && MarkAll(m, Visits(w)) == MarkAll(m.(refs := refs), VisitsAll(ws))
            && s + Met(w) == s + {id} + MetAll(ws))
      && (m.refs[id - 1] == 1 ==> MarkAll(m, Visits(w)) == Marks(refs, m.anchors[id - 1 := m.last + 1], m.last + 1))
      && (m.refs[id - 1] > 1 ==> MarkAll(m, Visits(w)) == m.(refs := refs))
      && (m.refs[id - 1] >= 1 ==> s + Met(w) == s + {id})
  {
    hide Unfold, UnfoldAll, Visits, VisitsAll, MarkAll, Met, MetAll, ReferencedIn;
    var s := ReferencedIn(m.refs);
    MoreReferenced(m.refs, id);
    if m.refs[id - 1] == 0 {
      FirstReference(nodes, m, s, id);
    } else {
      OtherReference(nodes, m, s, id);
    }
  }

  lemma {:induction false} InReferenced(refs: seq<nat>)
    ensures forall x :: x in ReferencedIn(refs) <==> 1 <= x <= |refs| && refs[x - 1] > 0
  {
    forall x ensures x in ReferencedIn(refs) <==> 1 <= x <= |refs| && refs[x - 1] > 0 {
      if 1 <= x <= |refs| && refs[x - 1] > 0 {
        var i := x - 1;
        assert i + 1 in ReferencedIn(refs);
      }
    }
  }

  lemma {:induction false} UnfoldCons(nodes: Table, m: Marks, s: set<nat>, ids: seq<nat>)
    requires ids != []
    ensures var w, ws := Unfold(nodes, s, ids[0]), UnfoldAll(nodes, s, ids);
      var rest := UnfoldAll(nodes, s + Met(w), ids[1..]);
      && MarkAll(m, VisitsAll(ws)) == MarkAll(MarkAll(m, Visits(w)), VisitsAll(rest))
      && s + MetAll(ws) == s + Met(w) + MetAll(rest)
  {
    var w, ws := Unfold(nodes, s, ids[0]), UnfoldAll(nodes, s, ids);
    var rest := UnfoldAll(nodes, s + Met(w), ids[1..]);
    assert ws[0] == w && ws[1..] == rest;
    MarkAllAppend(m, Visits(w), VisitsAll(rest));
    assert MetAll(ws) == Met(w) + MetAll(rest);
  }

  lemma {:induction false} UnfoldNone(nodes: Table, m: Marks, s: set<nat>)
    ensures MarkAll(m, VisitsAll(UnfoldAll(nodes, s, []))) == m
    ensures s + MetAll(UnfoldAll(nodes, s, [])) == s
  {
  }
}
