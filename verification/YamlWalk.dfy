/** How the dumper goes through a node table that may share nodes and contain cycles:
    into a node the first time it meets it, and no further every other time. */
module YamlWalk {
  import opened YamlNodes

  datatype Walk = Again(id: nat) | First(id: nat, kids: seq<Walk>)

  function UpTo(n: nat): (s: set<nat>)
    ensures forall i :: i in s <==> 1 <= i <= n
  {
    if n == 0 then {} else UpTo(n - 1) + {n}
  }

  function All(nodes: Table): set<nat> {
    UpTo(|nodes|)
  }

  /** The nodes that are met for the first time, in order. */
  function Firsts(w: Walk): seq<nat>
    decreases w, 1
  {
    match w case Again(_) => [] case First(id, kids) => [id] + FirstsAll(kids)
  }

  function FirstsAll(ws: seq<Walk>): seq<nat>
    decreases ws, 0
  {
    if ws == [] then [] else Firsts(ws[0]) + FirstsAll(ws[1..])
  }

  ghost function Met(w: Walk): set<nat> {
    set x | x in Firsts(w)
  }

  ghost function MetAll(ws: seq<Walk>): set<nat> {
    set x | x in FirstsAll(ws)
  }

  /** All visits, in order. */
  function Visits(w: Walk): seq<nat>
    decreases w, 1
  {
    match w case Again(id) => [id] case First(id, kids) => [id] + VisitsAll(kids)
  }

  function VisitsAll(ws: seq<Walk>): seq<nat>
    decreases ws, 0
  {
    if ws == [] then [] else Visits(ws[0]) + VisitsAll(ws[1..])
  }

  /** The walk from node `id` when the nodes in `seen` were met already. */
  ghost function Unfold(nodes: Table, seen: set<nat>, id: nat): Walk
    decreases All(nodes) - seen, 0
  {
    if id in seen || !(1 <= id <= |nodes|) then Again(id)
    else
      assert id in All(nodes) - seen && id !in All(nodes) - (seen + {id});
      First(id, UnfoldAll(nodes, seen + {id}, Kids(nodes[id - 1])))
  }

  ghost function UnfoldAll(nodes: Table, seen: set<nat>, ids: seq<nat>): (ws: seq<Walk>)
    ensures |ws| == |ids|
    decreases All(nodes) - seen, |ids|
  {
    if ids == [] then []
    else
      var w := Unfold(nodes, seen, ids[0]);
      assert All(nodes) - (seen + Met(w)) <= All(nodes) - seen;
      [w] + UnfoldAll(nodes, seen + Met(w), ids[1..])
  }

  predicate Distinct(s: seq<nat>) {
    forall i, j :: 0 <= i < j < |s| ==> s[i] != s[j]
  }

  /** The references of a node. */
  function KidsAt(nodes: Table, id: nat): seq<nat> {
    if 1 <= id <= |nodes| then Kids(nodes[id - 1]) else []
  }

  /** The references of the given nodes, one after the other. */
  function KidsOf(nodes: Table, ids: seq<nat>): seq<nat> {
    if ids == [] then [] else KidsAt(nodes, ids[0]) + KidsOf(nodes, ids[1..])
  }

  // ---------- each node is met once ----------

  lemma {:induction false} DistinctAppend(a: seq<nat>, b: seq<nat>)
    requires Distinct(a) && Distinct(b) && forall x :: x in a ==> x !in b
    ensures Distinct(a + b)
  {
    var s := a + b;
    forall i, j | 0 <= i < j < |s| ensures s[i] != s[j] {
      if i < |a| <= j { assert s[i] in a && s[j] in b; }
    }
  }

  /** Nodes met are nodes of the table, new, and met once. */
  lemma {:induction false} MetOnce(nodes: Table, seen: set<nat>, id: nat)
    ensures var f := Firsts(Unfold(nodes, seen, id));
      Distinct(f) && forall x :: x in f ==> x !in seen && 1 <= x <= |nodes|
    decreases All(nodes) - seen, 0
  {
    if id !in seen && 1 <= id <= |nodes| {
      assert id in All(nodes) - seen && id !in All(nodes) - (seen + {id});
      MetOnceAll(nodes, seen + {id}, Kids(nodes[id - 1]));
      DistinctAppend([id], FirstsAll(UnfoldAll(nodes, seen + {id}, Kids(nodes[id - 1]))));
    }
  }

  lemma {:induction false} MetOnceAll(nodes: Table, seen: set<nat>, ids: seq<nat>)
    ensures var f := FirstsAll(UnfoldAll(nodes, seen, ids));
      Distinct(f) && forall x :: x in f ==> x !in seen && 1 <= x <= |nodes|
    decreases All(nodes) - seen, |ids|
  {
    if ids != [] {
      var w := Unfold(nodes, seen, ids[0]);
      assert All(nodes) - (seen + Met(w)) <= All(nodes) - seen;
      MetOnce(nodes, seen, ids[0]);
      MetOnceAll(nodes, seen + Met(w), ids[1..]);
      var ws := UnfoldAll(nodes, seen + Met(w), ids[1..]);
      assert UnfoldAll(nodes, seen, ids)[1..] == ws;
      DistinctAppend(Firsts(w), FirstsAll(ws));
    }
  }

  // ---------- the nodes met are the reachable ones ----------

  /** `s` contains the children of its nodes. */
  ghost predicate ClosedUnder(nodes: Table, s: set<nat>) {
    forall x, k :: x in s && k in KidsAt(nodes, x) ==> k in s
  }

  /** Every closed set with the start in it contains the nodes met. */
  lemma {:induction false} MetReachable(nodes: Table, seen: set<nat>, id: nat, s: set<nat>)
    requires ClosedUnder(nodes, s) && id in s
    ensures Met(Unfold(nodes, seen, id)) <= s
    decreases All(nodes) - seen, 0
  {
    if id !in seen && 1 <= id <= |nodes| {
      assert id in All(nodes) - seen && id !in All(nodes) - (seen + {id});
      MetReachableAll(nodes, seen + {id}, Kids(nodes[id - 1]), s);
    }
  }

  lemma {:induction false} MetReachableAll(nodes: Table, seen: set<nat>, ids: seq<nat>, s: set<nat>)
    requires ClosedUnder(nodes, s) && forall j :: 0 <= j < |ids| ==> ids[j] in s
    ensures MetAll(UnfoldAll(nodes, seen, ids)) <= s
    decreases All(nodes) - seen, |ids|
  {
    if ids != [] {
      var w := Unfold(nodes, seen, ids[0]);
      assert All(nodes) - (seen + Met(w)) <= All(nodes) - seen;
      MetReachable(nodes, seen, ids[0], s);
      MetReachableAll(nodes, seen + Met(w), ids[1..], s);
      assert UnfoldAll(nodes, seen, ids)[1..] == UnfoldAll(nodes, seen + Met(w), ids[1..]);
    }
  }

  /** Visits go to nodes met now or before, and so do the references of the nodes met. */
  ghost predicate Covers(nodes: Table, seen: set<nat>, visits: seq<nat>, met: set<nat>) {
    && (forall x :: x in visits ==> x in seen + met)
    && (forall x :: x in met ==> x in visits)
    && (forall x, k :: x in met && k in KidsAt(nodes, x) ==> k in seen + met)
  }

  lemma {:induction false} CoversJoin(nodes: Table, seen: set<nat>, v1: seq<nat>, m1: set<nat>, v2: seq<nat>,
                                      m2: set<nat>)
    requires Covers(nodes, seen, v1, m1) && Covers(nodes, seen + m1, v2, m2)
    ensures Covers(nodes, seen, v1 + v2, m1 + m2)
  {
    assert seen + m1 + m2 == seen + (m1 + m2);
  }

  lemma {:induction false} MetCovers(nodes: Table, seen: set<nat>, id: nat)
    requires Closed(nodes) && 1 <= id <= |nodes|
    ensures var w := Unfold(nodes, seen, id);
      id in Visits(w) && Covers(nodes, seen, Visits(w), Met(w))
    decreases All(nodes) - seen, 0
  {
    if id !in seen {
      assert id in All(nodes) - seen && id !in All(nodes) - (seen + {id});
      var kids := Kids(nodes[id - 1]);
      MetCoversAll(nodes, seen + {id}, kids);
      var ws := UnfoldAll(nodes, seen + {id}, kids);
      NodeCovers(nodes, seen, id, VisitsAll(ws), MetAll(ws));
      assert Met(First(id, ws)) == {id} + MetAll(ws);
    }
  }

  lemma {:induction false} NodeCovers(nodes: Table, seen: set<nat>, id: nat, visits: seq<nat>, met: set<nat>)
    requires Covers(nodes, seen + {id}, visits, met) && forall k :: k in KidsAt(nodes, id) ==> k in visits
    ensures Covers(nodes, seen, [id] + visits, {id} + met)
  {
    assert seen + {id} + met == seen + ({id} + met);
  }

  lemma {:induction false} MetCoversAll(nodes: Table, seen: set<nat>, ids: seq<nat>)
    requires Closed(nodes) && forall j :: 0 <= j < |ids| ==> 1 <= ids[j] <= |nodes|
    ensures var ws := UnfoldAll(nodes, seen, ids);
      (forall x :: x in ids ==> x in VisitsAll(ws)) && Covers(nodes, seen, VisitsAll(ws), MetAll(ws))
    decreases All(nodes) - seen, |ids|
  {
    if ids != [] {
      hide Covers, Closed;
      var w := Unfold(nodes, seen, ids[0]);
      assert All(nodes) - (seen + Met(w)) <= All(nodes) - seen;
      MetCovers(nodes, seen, ids[0]);
      MetCoversAll(nodes, seen + Met(w), ids[1..]);
      var rest := UnfoldAll(nodes, seen + Met(w), ids[1..]);
      assert UnfoldAll(nodes, seen, ids)[1..] == rest;
      assert MetAll(UnfoldAll(nodes, seen, ids)) == Met(w) + MetAll(rest);
      CoversJoin(nodes, seen, Visits(w), Met(w), VisitsAll(rest), MetAll(rest));
    }
  }

  // ---------- visits are references ----------

  lemma {:induction false} KidsOfAppend(nodes: Table, a: seq<nat>, b: seq<nat>)
    ensures KidsOf(nodes, a + b) == KidsOf(nodes, a) + KidsOf(nodes, b)
  {
    if a == [] {
      assert a + b == b;
    } else {
      assert (a + b)[1..] == a[1..] + b;
      KidsOfAppend(nodes, a[1..], b);
    }
  }

  /** A node is visited once for every reference from a node met, and the start once more. */
  lemma {:induction false} VisitsAreReferences(nodes: Table, seen: set<nat>, id: nat)
    ensures var w := Unfold(nodes, seen, id);
      multiset(Visits(w)) == multiset{id} + multiset(KidsOf(nodes, Firsts(w)))
    decreases All(nodes) - seen, 0
  {
    if id !in seen && 1 <= id <= |nodes| {
      assert id in All(nodes) - seen && id !in All(nodes) - (seen + {id});
      var kids := Kids(nodes[id - 1]);
      VisitsAreReferencesAll(nodes, seen + {id}, kids);
      var f := FirstsAll(UnfoldAll(nodes, seen + {id}, kids));
      OneMore(nodes, id, VisitsAll(UnfoldAll(nodes, seen + {id}, kids)), f);
    }
  }

  lemma {:induction false} OneMore(nodes: Table, id: nat, visits: seq<nat>, f: seq<nat>)
    requires multiset(visits) == multiset(KidsAt(nodes, id)) + multiset(KidsOf(nodes, f))
    ensures multiset([id] + visits) == multiset{id} + multiset(KidsOf(nodes, [id] + f))
  {
    assert ([id] + f)[1..] == f;
  }

  lemma {:induction false} VisitsAreReferencesAll(nodes: Table, seen: set<nat>, ids: seq<nat>)
    ensures var ws := UnfoldAll(nodes, seen, ids);
      multiset(VisitsAll(ws)) == multiset(ids) + multiset(KidsOf(nodes, FirstsAll(ws)))
    decreases All(nodes) - seen, |ids|
  {
    if ids != [] {
      var w := Unfold(nodes, seen, ids[0]);
      assert All(nodes) - (seen + Met(w)) <= All(nodes) - seen;
      VisitsAreReferences(nodes, seen, ids[0]);
      VisitsAreReferencesAll(nodes, seen + Met(w), ids[1..]);
      var rest := UnfoldAll(nodes, seen + Met(w), ids[1..]);
      assert UnfoldAll(nodes, seen, ids)[1..] == rest;
      ManyMore(nodes, ids, Visits(w), Firsts(w), VisitsAll(rest), FirstsAll(rest));
    }
  }

  lemma {:induction false} ManyMore(nodes: Table, ids: seq<nat>, v: seq<nat>, f: seq<nat>, vs: seq<nat>, fs: seq<nat>)
    requires ids != [] && multiset(v) == multiset{ids[0]} + multiset(KidsOf(nodes, f))
    requires multiset(vs) == multiset(ids[1..]) + multiset(KidsOf(nodes, fs))
    ensures multiset(v + vs) == multiset(ids) + multiset(KidsOf(nodes, f + fs))
  {
    KidsOfAppend(nodes, f, fs);
    assert ids == [ids[0]] + ids[1..];
    assert multiset(v + vs) == multiset(v) + multiset(vs);
  }

  // ---------- a second visit comes after the first ----------

  /** A node that is visited again was met before. */
  ghost predicate InOrder(w: Walk, seen: set<nat>)
    decreases w, 1
  {
    match w
    case Again(id) => id in seen
    case First(id, kids) => id !in seen && InOrderAll(kids, seen + {id})
  }

  ghost predicate InOrderAll(ws: seq<Walk>, seen: set<nat>)
    decreases ws, 0
  {
    ws == [] || (InOrder(ws[0], seen) && InOrderAll(ws[1..], seen + Met(ws[0])))
  }

  lemma {:induction false} UnfoldInOrder(nodes: Table, seen: set<nat>, id: nat)
    requires Closed(nodes) && 1 <= id <= |nodes|
    ensures InOrder(Unfold(nodes, seen, id), seen)
    decreases All(nodes) - seen, 0
  {
    if id !in seen {
      assert id in All(nodes) - seen && id !in All(nodes) - (seen + {id});
      UnfoldInOrderAll(nodes, seen + {id}, Kids(nodes[id - 1]));
    }
  }

  lemma {:induction false} UnfoldInOrderAll(nodes: Table, seen: set<nat>, ids: seq<nat>)
    requires Closed(nodes) && forall j :: 0 <= j < |ids| ==> 1 <= ids[j] <= |nodes|
    ensures InOrderAll(UnfoldAll(nodes, seen, ids), seen)
    decreases All(nodes) - seen, |ids|
  {
    if ids != [] {
      var w := Unfold(nodes, seen, ids[0]);
      assert All(nodes) - (seen + Met(w)) <= All(nodes) - seen;
      UnfoldInOrder(nodes, seen, ids[0]);
      UnfoldInOrderAll(nodes, seen + Met(w), ids[1..]);
      assert UnfoldAll(nodes, seen, ids)[1..] == UnfoldAll(nodes, seen + Met(w), ids[1..]);
    }
  }

  /** Every visit but the first, in order. */
  function Agains(w: Walk): seq<nat>
    decreases w, 1
  {
    match w case Again(id) => [id] case First(_, kids) => AgainsAll(kids)
  }

  function AgainsAll(ws: seq<Walk>): seq<nat>
    decreases ws, 0
  {
    if ws == [] then [] else Agains(ws[0]) + AgainsAll(ws[1..])
  }

  lemma {:induction false} VisitsSplit(w: Walk)
    ensures multiset(Visits(w)) == multiset(Firsts(w)) + multiset(Agains(w))
    decreases w, 1
  {
    if w.First? { VisitsSplitAll(w.kids); }
  }

  lemma {:induction false} VisitsSplitAll(ws: seq<Walk>)
    ensures multiset(VisitsAll(ws)) == multiset(FirstsAll(ws)) + multiset(AgainsAll(ws))
    decreases ws, 0
  {
    if ws != [] {
      VisitsSplit(ws[0]);
      VisitsSplitAll(ws[1..]);
    }
  }

  lemma {:induction false} AgainsMet(w: Walk, seen: set<nat>)
    requires InOrder(w, seen)
    ensures forall x :: x in Agains(w) ==> x in seen + Met(w)
    decreases w, 1
  {
    if w.First? {
      AgainsMetAll(w.kids, seen + {w.id});
      assert Met(w) == {w.id} + MetAll(w.kids);
    }
  }

  lemma {:induction false} AgainsMetAll(ws: seq<Walk>, seen: set<nat>)
    requires InOrderAll(ws, seen)
    ensures forall x :: x in AgainsAll(ws) ==> x in seen + MetAll(ws)
    decreases ws, 0
  {
    if ws != [] {
      AgainsMet(ws[0], seen);
      AgainsMetAll(ws[1..], seen + Met(ws[0]));
      assert MetAll(ws) == Met(ws[0]) + MetAll(ws[1..]);
    }
  }
}
