/** The mapped-DNS cache as a value: names with their index, least recently touched
    first, and what any run of finds and lookups does to it. */
module Lru {
  import opened Basics
  import opened KeyOrder

  datatype Entry = Entry(name: Name, idx: nat)

  type Cache = seq<Entry>

  /** Names and indices are distinct, and the indices in use are 0 to |s| - 1. */
  ghost predicate WellFormed(s: Cache, max: nat) {
    && |s| <= max
    && (forall i :: 0 <= i < |s| ==> s[i].idx < |s|)
    && (forall i, j :: 0 <= i < j < |s| ==> s[i].name != s[j].name)
    && (forall i, j :: 0 <= i < j < |s| ==> s[i].idx != s[j].idx)
  }

  /** Position of a name, or |s|. */
  function Position(s: Cache, name: Name): (k: nat)
    ensures k <= |s|
    ensures k < |s| ==> s[k].name == name
    ensures forall i :: 0 <= i < k ==> s[i].name != name
  {
    if s == [] then 0 else if s[0].name == name then 0 else 1 + Position(s[1..], name)
  }

  /** Position of an index, or |s|. */
  function PositionIdx(s: Cache, idx: int): (k: nat)
    ensures k <= |s|
    ensures k < |s| ==> s[k].idx == idx
    ensures forall i :: 0 <= i < k ==> s[i].idx != idx
  {
    if s == [] then 0 else if s[0].idx == idx then 0 else 1 + PositionIdx(s[1..], idx)
  }

  function Touch(s: Cache, k: nat): Cache
    requires k < |s|
  {
    s[..k] + s[k + 1..] + [s[k]]
  }

  /** `hev_mapped_dns_find`; `alloc` says whether a new node can be allocated. */
  function Find(s: Cache, max: nat, name: Name, alloc: bool): Cache
    requires max >= 1
  {
    var k := Position(s, name);
    if k < |s| then Touch(s, k)
    else if !alloc then s
    else if |s| < max then s + [Entry(name, |s|)]
    else s[1..] + [Entry(name, s[0].idx)]
  }

  /** The index that `hev_mapped_dns_find` returns, or -1. */
  function FindIdx(s: Cache, max: nat, name: Name, alloc: bool): int
    requires max >= 1
  {
    var k := Position(s, name);
    if k < |s| then s[k].idx
    else if !alloc then -1
    else if |s| < max then |s|
    else s[0].idx
  }

  /** `hev_mapped_dns_lookup` on a host index. */
  function Lookup(s: Cache, idx: int): Cache {
    var k := PositionIdx(s, idx);
    if k < |s| then Touch(s, k) else s
  }

  function LookupName(s: Cache, idx: int): Option<Name> {
    var k := PositionIdx(s, idx);
    if k < |s| then Some(s[k].name) else None
  }

  // ---------- every step keeps the cache well formed ----------

  lemma {:induction false} TouchWellFormed(s: Cache, max: nat, k: nat)
    requires WellFormed(s, max) && k < |s|
    ensures WellFormed(Touch(s, k), max)
  {
    var t := Touch(s, k);
    assert forall i :: 0 <= i < |t| ==> t[i] == if i < k then s[i] else if i < |s| - 1 then s[i + 1] else s[k];
  }

  lemma {:induction false} AddWellFormed(s: Cache, max: nat, name: Name)
    requires max >= 1 && WellFormed(s, max) && forall i :: 0 <= i < |s| ==> s[i].name != name
    ensures WellFormed(if |s| < max then s + [Entry(name, |s|)] else s[1..] + [Entry(name, s[0].idx)], max)
  {
  }

  /** The found name is the last entry. */
  lemma {:induction false} FindEntry(s: Cache, max: nat, name: Name, alloc: bool)
    requires max >= 1
    ensures var t, i := Find(s, max, name, alloc), FindIdx(s, max, name, alloc);
      && |s| <= |t|
      && (i >= 0 ==> t != [] && t[|t| - 1] == Entry(name, i))
  {
  }

  lemma {:induction false} FindWellFormed(s: Cache, max: nat, name: Name, alloc: bool)
    requires max >= 1 && WellFormed(s, max)
    ensures WellFormed(Find(s, max, name, alloc), max)
    ensures |s| <= |Find(s, max, name, alloc)|
    ensures var i := FindIdx(s, max, name, alloc);
      i >= 0 ==> LookupName(Find(s, max, name, alloc), i) == Some(name)
  {
    FindEntry(s, max, name, alloc);
    var k, t := Position(s, name), Find(s, max, name, alloc);
    if k < |s| {
      TouchWellFormed(s, max, k);
    } else if alloc {
      AddWellFormed(s, max, name);
    }
    hide Find, FindIdx, LookupName, Position;
    if FindIdx(s, max, name, alloc) >= 0 {
      LookupAt(t, max, |t| - 1);
    }
  }

  lemma {:induction false} LookupAt(s: Cache, max: nat, k: nat)
    requires WellFormed(s, max) && k < |s|
    ensures PositionIdx(s, s[k].idx) == k && Position(s, s[k].name) == k
    ensures LookupName(s, s[k].idx) == Some(s[k].name)
  {
  }

  // ---------- runs ----------

  datatype Op = FindOp(name: Name, alloc: bool) | LookupOp(idx: int)

  function Step(s: Cache, max: nat, op: Op): Cache
    requires max >= 1
  {
    match op
    case FindOp(name, alloc) => Find(s, max, name, alloc)
    case LookupOp(idx) => Lookup(s, idx)
  }

  /** The name an operation touches, if any. */
  function Touched(s: Cache, max: nat, op: Op): seq<Name>
    requires max >= 1
  {
    match op
    case FindOp(name, alloc) => if FindIdx(s, max, name, alloc) >= 0 then [name] else []
    case LookupOp(idx) => if LookupName(s, idx).Some? then [LookupName(s, idx).value] else []
  }

  function Run(s: Cache, max: nat, ops: seq<Op>): Cache
    requires max >= 1
    decreases |ops|
  {
    if ops == [] then s else Run(Step(s, max, ops[0]), max, ops[1..])
  }

  /** The names touched along a run, oldest first. */
  function Trace(s: Cache, max: nat, ops: seq<Op>): seq<Name>
    requires max >= 1
    decreases |ops|
  {
    if ops == [] then [] else Touched(s, max, ops[0]) + Trace(Step(s, max, ops[0]), max, ops[1..])
  }

  lemma {:induction false} StepWellFormed(s: Cache, max: nat, op: Op)
    requires max >= 1 && WellFormed(s, max)
    ensures WellFormed(Step(s, max, op), max)
  {
    match op
    case FindOp(name, alloc) => FindWellFormed(s, max, name, alloc);
    case LookupOp(idx) =>
      var k := PositionIdx(s, idx);
      if k < |s| { TouchWellFormed(s, max, k); }
  }

  lemma {:induction false} RunWellFormed(s: Cache, max: nat, ops: seq<Op>)
    requires max >= 1 && WellFormed(s, max)
    ensures WellFormed(Run(s, max, ops), max)
    decreases |ops|
  {
    if ops != [] {
      StepWellFormed(s, max, ops[0]);
      RunWellFormed(Step(s, max, ops[0]), max, ops[1..]);
    }
  }

  function Names(s: Cache): seq<Name> {
    seq(|s|, i requires 0 <= i < |s| => s[i].name)
  }

  ghost function NameSet(s: seq<Name>): set<Name> {
    set i | 0 <= i < |s| :: s[i]
  }

  // ---------- the list is in last-touch order ----------

  /** The distinct names of a trace, ordered by their last occurrence. */
  function LastTouch(trace: seq<Name>): seq<Name>
    decreases |trace|
  {
    if trace == [] then []
    else
      var x := trace[|trace| - 1];
      Without(LastTouch(trace[..|trace| - 1]), x) + [x]
  }

  /** The last `n` elements of `s`, or all of them. */
  function Suffix(s: seq<Name>, n: nat): seq<Name> {
    if |s| <= n then s else s[|s| - n..]
  }

  predicate Distinct(s: seq<Name>) {
    forall i, j :: 0 <= i < j < |s| ==> s[i] != s[j]
  }

  /** One touch of `x` on the abstract recency list. */
  lemma {:induction false} DropAt(s: seq<Name>, x: Name, k: nat)
    requires Distinct(s) && k < |s| && s[k] == x
    ensures Without(s, x) == s[..k] + s[k + 1..]
  {
    if k > 0 {
      assert s[0] != s[k];
      DropAt(s[1..], x, k - 1);
      assert s[..k] == [s[0]] + s[1..][..k - 1] && s[1..][k..] == s[k + 1..];
    }
  }

  lemma {:induction false} DropAbsent(s: seq<Name>, x: Name)
    requires x !in s
    ensures Without(s, x) == s
  {
    if s != [] {
      DropAbsent(s[1..], x);
    }
  }

  lemma {:induction false} DropMembers(s: seq<Name>, x: Name)
    requires Distinct(s)
    ensures Distinct(Without(s, x)) && x !in Without(s, x)
    ensures forall y :: y in Without(s, x) <==> y in s && y != x
  {
    if x in s {
      var k :| 0 <= k < |s| && s[k] == x;
      DropAt(s, x, k);
    } else {
      DropAbsent(s, x);
    }
  }

  lemma {:induction false} LastTouchDistinct(trace: seq<Name>)
    ensures Distinct(LastTouch(trace))
    ensures forall y :: y in LastTouch(trace) <==> y in trace
    decreases |trace|
  {
    if trace != [] {
      var n := |trace| - 1;
      LastTouchDistinct(trace[..n]);
      DropMembers(LastTouch(trace[..n]), trace[n]);
      assert trace == trace[..n] + [trace[n]];
    }
  }

  /** Touching `x` on a list cut to its last `n` names. */
  lemma {:induction false} SuffixTouch(l: seq<Name>, x: Name, n: nat)
    requires Distinct(l) && n >= 1
    ensures var t := Suffix(l, n);
      var l' := Without(l, x) + [x];
      && (x in t ==> Suffix(l', n) == Without(t, x) + [x])
      && (x !in t && |t| < n ==> Suffix(l', n) == t + [x])
      && (x !in t && |t| == n ==> Suffix(l', n) == t[1..] + [x])
  {
    if x in Suffix(l, n) {
      hide Suffix, Without;
      SuffixTouchInside(l, x, n);
    } else if x in l {
      hide Suffix, Without;
      SuffixTouchOld(l, x, n);
    } else {
      SuffixTouchNew(l, x, n);
    }
  }

  lemma {:induction false} SuffixTouchNew(l: seq<Name>, x: Name, n: nat)
    requires x !in l && n >= 1
    ensures var t := Suffix(l, n);
      Suffix(Without(l, x) + [x], n) == if |t| < n then t + [x] else t[1..] + [x]
  {
    DropAbsent(l, x);
  }

  lemma {:induction false} DropPrefix(p: seq<Name>, t: seq<Name>, x: Name)
    requires x !in p
    ensures Without(p + t, x) == p + Without(t, x)
  {
    if p == [] {
      assert p + t == t;
    } else {
      DropPrefix(p[1..], t, x);
      assert (p + t)[1..] == p[1..] + t && (p + t)[0] == p[0];
    }
  }

  lemma {:induction false} SuffixTouchInside(l: seq<Name>, x: Name, n: nat)
    requires Distinct(l) && x in Suffix(l, n)
    ensures Suffix(Without(l, x) + [x], n) == Without(Suffix(l, n), x) + [x]
  {
    var p := SuffixSplit(l, n);
    hide Suffix, Without;
    var t := Suffix(l, n);
    var k :| 0 <= k < |t| && t[k] == x;
    PrefixWithout(p, t, k);
    DropPrefix(p, t, x);
    DropAt(t, x, k);
    var d := Without(t, x);
    SuffixBehind(p, d + [x], n);
    assert p + d + [x] == p + (d + [x]);
  }

  /** What the suffix leaves in front. */
  lemma {:induction false} SuffixSplit(l: seq<Name>, n: nat) returns (p: seq<Name>)
    ensures l == p + Suffix(l, n)
    ensures if p == [] then |Suffix(l, n)| <= n else |Suffix(l, n)| == n
  {
    p := l[..|l| - |Suffix(l, n)|];
  }

  lemma {:induction false} PrefixWithout(p: seq<Name>, t: seq<Name>, k: nat)
    requires Distinct(p + t) && k < |t|
    ensures t[k] !in p && Distinct(t)
  {
    var l := p + t;
    forall i | 0 <= i < |p| ensures p[i] != t[k] {
      assert l[i] == p[i] && l[|p| + k] == t[k];
    }
    forall i, j | 0 <= i < j < |t| ensures t[i] != t[j] {
      assert l[|p| + i] == t[i] && l[|p| + j] == t[j];
    }
  }

  lemma {:induction false} SuffixBehind(p: seq<Name>, t: seq<Name>, n: nat)
    requires if p == [] then |t| <= n else |t| == n
    ensures Suffix(p + t, n) == t
  {
  }

  lemma {:induction false} SuffixTouchOld(l: seq<Name>, x: Name, n: nat)
    requires Distinct(l) && x in l && x !in Suffix(l, n) && n >= 1
    ensures |Suffix(l, n)| == n && Suffix(Without(l, x) + [x], n) == Suffix(l, n)[1..] + [x]
  {
    var p := SuffixSplit(l, n);
    hide Suffix, Without;
    var t := Suffix(l, n);
    assert x in p;
    var k: nat :| k < |p| && p[k] == x;
    assert l[k] == x;
    DropAt(l, x, k);
    CutInFront(p, t, k);
    var p' := p[..k] + p[k + 1..] + [t[0]];
    SuffixBehind(p', t[1..] + [x], n);
    assert p' + t[1..] + [x] == p' + (t[1..] + [x]);
  }

  lemma {:induction false} CutInFront(p: seq<Name>, t: seq<Name>, k: nat)
    requires k < |p| && t != []
    ensures (p + t)[..k] + (p + t)[k + 1..] == (p[..k] + p[k + 1..] + [t[0]]) + t[1..]
  {
    assert t == [t[0]] + t[1..];
  }

  lemma {:induction false} AddNames(s: Cache, x: Name)
    ensures forall i: nat :: Names(s + [Entry(x, i)]) == Names(s) + [x]
    ensures forall i: nat :: s != [] ==> Names(s[1..] + [Entry(x, i)]) == Names(s)[1..] + [x]
  {
  }

  lemma {:induction false} NamesTouch(s: Cache, k: nat)
    requires k < |s|
    ensures var ns := Names(s); Names(Touch(s, k)) == ns[..k] + ns[k + 1..] + [ns[k]]
  {
  }

  /** The entry an operation hits, or |s|. */
  function Hit(s: Cache, op: Op): (k: nat)
    ensures k <= |s|
  {
    match op case FindOp(name, _) => Position(s, name) case LookupOp(idx) => PositionIdx(s, idx)
  }

  /** A step does nothing, touches an entry, or adds one, evicting the oldest if full. */
  lemma {:induction false} StepShape(s: Cache, max: nat, op: Op)
    requires max >= 1 && WellFormed(s, max)
    ensures var k, t, s' := Hit(s, op), Touched(s, max, op), Step(s, max, op);
      && (k < |s| ==> t == [s[k].name] && s' == Touch(s, k))
      && (k == |s| && t == [] ==> s' == s)
      && (k == |s| && t != [] ==>
            && op.FindOp? && t == [op.name] && (forall i :: 0 <= i < |s| ==> s[i].name != op.name)
            && s' == (if |s| < max then s + [Entry(op.name, |s|)] else s[1..] + [Entry(op.name, s[0].idx)]))
  {
  }

  /** What a step does to the list of names. */
  lemma {:induction false} StepNames(s: Cache, max: nat, op: Op)
    requires max >= 1 && WellFormed(s, max)
    ensures var t := Touched(s, max, op);
      var ns, ns' := Names(s), Names(Step(s, max, op));
      && Distinct(ns)
      && (t == [] ==> ns' == ns)
      && (t != [] ==> |t| == 1 && ns' == if t[0] in ns then Without(ns, t[0]) + [t[0]]
                                       else if |ns| < max then ns + [t[0]] else ns[1..] + [t[0]])
  {
    StepShape(s, max, op);
    var t, ns, k := Touched(s, max, op), Names(s), Hit(s, op);
    if k < |s| {
      NamesTouch(s, k);
      assert ns[k] == t[0];
      DropAt(ns, t[0], k);
    } else if t != [] {
      assert t[0] !in ns;
      AddNames(s, t[0]);
    }
  }

  /** At every point of every run the list of names is exactly the last-touch order of
      the run so far, cut to the `max` most recent. */
  lemma {:induction false} ListIsLastTouchOrder(max: nat, ops: seq<Op>)
    requires max >= 1
    ensures Names(Run([], max, ops)) == Suffix(LastTouch(Trace([], max, ops)), max)
    decreases |ops|
  {
    if ops != [] {
      var n := |ops| - 1;
      ListIsLastTouchOrder(max, ops[..n]);
      RunSnoc([], max, ops[..n], ops[n]);
      assert ops == ops[..n] + [ops[n]];
      var s, h := Run([], max, ops[..n]), Trace([], max, ops[..n]);
      var t := Touched(s, max, ops[n]);
      RunWellFormed([], max, ops[..n]);
      StepNames(s, max, ops[n]);
      LastTouchDistinct(h);
      if t == [] {
        assert h + t == h;
      } else {
        SuffixTouch(LastTouch(h), t[0], max);
        assert (h + t)[..|h|] == h && (h + t)[|h|] == t[0];
      }
    }
  }

  lemma {:induction false} RunSnoc(s: Cache, max: nat, ops: seq<Op>, op: Op)
    requires max >= 1
    ensures Run(s, max, ops + [op]) == Step(Run(s, max, ops), max, op)
    ensures Trace(s, max, ops + [op]) == Trace(s, max, ops) + Touched(Run(s, max, ops), max, op)
    decreases |ops|
  {
    if ops == [] {
      assert (ops + [op])[1..] == [];
    } else {
      assert (ops + [op])[1..] == ops[1..] + [op] && (ops + [op])[0] == ops[0];
      RunSnoc(Step(s, max, ops[0]), max, ops[1..], op);
    }
  }

  // ---------- retention ----------

  /** `name` has index `idx`, and exactly the names in `since` were touched after it. */
  ghost predicate Holds(s: Cache, name: Name, idx: nat, since: set<Name>) {
    exists k :: 0 <= k < |s| && HoldsAt(s, k, name, idx, since)
  }

  ghost predicate HoldsAt(s: Cache, k: int, name: Name, idx: nat, since: set<Name>)
    requires 0 <= k < |s|
  {
    s[k] == Entry(name, idx) && since == NameSet(Names(s)[k + 1..])
  }

  ghost predicate Gone(s: Cache, max: nat, name: Name, since: set<Name>) {
    (forall i :: 0 <= i < |s| ==> s[i].name != name) && |since| >= max
  }

  lemma {:induction false} NameSetSize(s: seq<Name>)
    requires Distinct(s)
    ensures |NameSet(s)| == |s|
  {
    if s != [] {
      var n := |s| - 1;
      NameSetSize(s[..n]);
      assert NameSet(s) == NameSet(s[..n]) + {s[n]};
      assert s[n] !in NameSet(s[..n]);
    }
  }

  /** One step that does not touch `name`. */
  lemma {:induction false} StepHolds(s: Cache, max: nat, op: Op, name: Name, idx: nat, since: set<Name>)
    requires max >= 1 && WellFormed(s, max) && Holds(s, name, idx, since)
    requires name !in Touched(s, max, op)
    ensures var s', since' := Step(s, max, op), since + NameSet(Touched(s, max, op));
      Holds(s', name, idx, since') || Gone(s', max, name, since')
  {
    var k: nat :| k < |s| && HoldsAt(s, k, name, idx, since);
    StepShape(s, max, op);
    hide Names, NameSet, Step, Touched, Hit, Touch;
    var t, s', j := Touched(s, max, op), Step(s, max, op), Hit(s, op);
    if j < |s| {
      NameSetOne(s[j].name);
      TouchHolds(s, j, k, name, idx, since);
    } else if t == [] {
      NameSetNone();
      assert since + NameSet(t) == since;
    } else {
      NameSetOne(op.name);
      AddHolds(s, max, op.name, name, k, idx, since);
    }
  }

  lemma {:induction false} TouchHolds(s: Cache, j: nat, k: nat, name: Name, idx: nat, since: set<Name>)
    requires j < |s| && k < |s| && j != k && HoldsAt(s, k, name, idx, since)
    ensures Holds(Touch(s, j), name, idx, since + {s[j].name})
  {
    TouchRest(s, j, k);
    assert HoldsAt(Touch(s, j), if j < k then k - 1 else k, name, idx, since + {s[j].name});
  }

  lemma {:induction false} NameSetNone()
    ensures NameSet([]) == {}
  {
  }

  lemma {:induction false} NameSetOne(x: Name)
    ensures NameSet([x]) == {x}
  {
    assert [x][0] == x;
  }

  /** A new name comes in behind `name`, or pushes it out. */
  lemma {:induction false} AddHolds(s: Cache, max: nat, x: Name, name: Name, k: nat, idx: nat, since: set<Name>)
    requires max >= 1 && WellFormed(s, max) && k < |s| && HoldsAt(s, k, name, idx, since) && x != name
    requires forall i :: 0 <= i < |s| ==> s[i].name != x
    ensures var s' := if |s| < max then s + [Entry(x, |s|)] else s[1..] + [Entry(x, s[0].idx)];
      Holds(s', name, idx, since + {x}) || Gone(s', max, name, since + {x})
  {
    var rest := Names(s)[k + 1..];
    NameSetAppend(rest, [x]);
    NameSetOne(x);
    AddNames(s, x);
    if |s| < max {
      SnocFrom(Names(s), x, k + 1);
      assert HoldsAt(s + [Entry(x, |s|)], k, name, idx, since + {x});
    } else if k > 0 {
      var s' := s[1..] + [Entry(x, s[0].idx)];
      SnocFrom(Names(s), x, k + 1);
      assert Names(s')[k..] == (Names(s) + [x])[k + 1..];
      assert HoldsAt(s', k - 1, name, idx, since + {x});
    } else {
      PushedOut(s, max, x, name, since);
    }
  }

  lemma {:induction false} SnocFrom(ns: seq<Name>, x: Name, k: nat)
    requires k <= |ns|
    ensures (ns + [x])[k..] == ns[k..] + [x]
  {
  }

  lemma {:induction false} PushedOut(s: Cache, max: nat, x: Name, name: Name, since: set<Name>)
    requires WellFormed(s, max) && |s| == max >= 1 && s[0].name == name && x != name
    requires since == NameSet(Names(s)[1..]) && forall i :: 0 <= i < |s| ==> s[i].name != x
    ensures Gone(s[1..] + [Entry(x, s[0].idx)], max, name, since + {x})
  {
    NameSetSize(Names(s)[1..]);
    assert x !in since;
  }

  lemma {:induction false} TouchRest(s: Cache, j: nat, k: nat)
    requires j < |s| && k < |s| && j != k
    ensures var k' := if j < k then k - 1 else k;
      NameSet(Names(Touch(s, j))[k' + 1..]) == NameSet(Names(s)[k + 1..]) + {s[j].name}
  {
    var l := Names(s);
    assert Names(Touch(s, j)) == l[..j] + l[j + 1..] + [l[j]];
    if j < k {
      MovedBehind(l, j, k);
      NameSetAppend(l[k + 1..], [l[j]]);
      NameSetOne(l[j]);
    } else {
      var a, b := l[k + 1..j], l[j + 1..];
      MovedWithin(l, j, k);
      NameSetAppend(a + [l[j]], b);
      NameSetAppend(a, [l[j]]);
      NameSetAppend(a + b, [l[j]]);
      NameSetAppend(a, b);
      NameSetOne(l[j]);
    }
  }

  lemma {:induction false} MovedBehind(l: seq<Name>, j: nat, k: nat)
    requires j < k < |l|
    ensures (l[..j] + l[j + 1..] + [l[j]])[k..] == l[k + 1..] + [l[j]]
  {
  }

  lemma {:induction false} MovedWithin(l: seq<Name>, j: nat, k: nat)
    requires k < j < |l|
    ensures (l[..j] + l[j + 1..] + [l[j]])[k + 1..] == l[k + 1..j] + l[j + 1..] + [l[j]]
    ensures l[k + 1..] == l[k + 1..j] + [l[j]] + l[j + 1..]
  {
  }

  lemma {:induction false} StepGone(s: Cache, max: nat, op: Op, name: Name, since: set<Name>)
    requires max >= 1 && WellFormed(s, max) && Gone(s, max, name, since)
    requires name !in Touched(s, max, op)
    ensures Gone(Step(s, max, op), max, name, since + NameSet(Touched(s, max, op)))
  {
    var more := NameSet(Touched(s, max, op));
    SubsetSize(since, since + more);
    var s' := Step(s, max, op);
    forall i | 0 <= i < |s'| ensures s'[i].name != name {
      assert s'[i] in s || s'[i].name in Touched(s, max, op);
    }
  }

  lemma {:induction false} SubsetSize(a: set<Name>, b: set<Name>)
    requires a <= b
    ensures |a| <= |b|
  {
    if a != {} {
      var x :| x in a;
      SubsetSize(a - {x}, b - {x});
    }
  }

  lemma {:induction false} RunRetention(s: Cache, max: nat, ops: seq<Op>, name: Name, idx: nat, since: set<Name>)
    requires max >= 1 && WellFormed(s, max)
    requires Holds(s, name, idx, since) || Gone(s, max, name, since)
    requires name !in Trace(s, max, ops)
    ensures var s', since' := Run(s, max, ops), since + NameSet(Trace(s, max, ops));
      Holds(s', name, idx, since') || Gone(s', max, name, since')
    decreases |ops|
  {
    if ops == [] {
      assert since + NameSet([]) == since;
    } else {
      var t, s1 := Touched(s, max, ops[0]), Step(s, max, ops[0]);
      var r := Trace(s1, max, ops[1..]);
      assert name !in t && name !in r by {
        assert Trace(s, max, ops) == t + r;
      }
      if Holds(s, name, idx, since) {
        StepHolds(s, max, ops[0], name, idx, since);
      } else {
        StepGone(s, max, ops[0], name, since);
      }
      StepWellFormed(s, max, ops[0]);
      RunRetention(s1, max, ops[1..], name, idx, since + NameSet(t));
      NameSetAppend(t, r);
      assert since + NameSet(t + r) == since + NameSet(t) + NameSet(r);
    }
  }

  lemma {:induction false} NameSetAppend(a: seq<Name>, b: seq<Name>)
    ensures NameSet(a + b) == NameSet(a) + NameSet(b)
  {
    assert forall y :: y in NameSet(a + b) <==> y in a + b;
    assert forall y :: y in NameSet(a) <==> y in a;
    assert forall y :: y in NameSet(b) <==> y in b;
  }

  /** Retention: whatever touched `name`, a find or a successful lookup, and for as long as
      it is not touched again, looking its index up answers `name` exactly as long as fewer
      than `max` distinct other names were touched. */
  lemma {:induction false} Retention(s: Cache, max: nat, op: Op, name: Name, ops: seq<Op>)
    requires max >= 1 && WellFormed(s, max) && Touched(s, max, op) == [name]
    requires name !in Trace(Step(s, max, op), max, ops)
    ensures var s1 := Step(s, max, op);
      && s1 != [] && s1[|s1| - 1].name == name
      && (LookupName(Run(s1, max, ops), s1[|s1| - 1].idx) == Some(name) <==> |NameSet(Trace(s1, max, ops))| < max)
  {
    hide Run, Trace, LookupName, WellFormed;
    var s1 := Step(s, max, op);
    var since := NameSet(Trace(s1, max, ops));
    TouchedLast(s, max, op, name);
    StepWellFormed(s, max, op);
    var idx := s1[|s1| - 1].idx;
    assert HoldsAt(s1, |s1| - 1, name, idx, {});
    RunRetention(s1, max, ops, name, idx, {});
    assert {} + since == since;
    RunWellFormed(s1, max, ops);
    RetainedIff(Run(s1, max, ops), max, name, idx, since);
  }

  /** What an operation touches becomes the last entry. */
  lemma {:induction false} TouchedLast(s: Cache, max: nat, op: Op, name: Name)
    requires max >= 1 && WellFormed(s, max) && Touched(s, max, op) == [name]
    ensures var s1 := Step(s, max, op); s1 != [] && s1[|s1| - 1].name == name
  {
    StepShape(s, max, op);
  }

  // ---------- retention over whole runs ----------

  /** The names behind the last occurrence of `name`, or all of them. */
  function Since(trace: seq<Name>, name: Name): seq<Name> {
    if name !in trace then trace else Since(trace[1..], name)
  }

  /** No find along the run gives `name` an index. */
  predicate NeverFound(s: Cache, max: nat, ops: seq<Op>, name: Name)
    requires max >= 1
    decreases |ops|
  {
    ops == [] || (!Finds(s, max, ops[0], name) && NeverFound(Step(s, max, ops[0]), max, ops[1..], name))
  }

  predicate Finds(s: Cache, max: nat, op: Op, name: Name)
    requires max >= 1
  {
    op.FindOp? && op.name == name && FindIdx(s, max, name, op.alloc) >= 0
  }

  lemma {:induction false} SinceAppend(a: seq<Name>, b: seq<Name>, name: Name)
    ensures Since(a + b, name) == if name in b then Since(b, name) else Since(a, name) + b
  {
    if name in b {
      if a == [] {
        assert a + b == b;
      } else {
        assert (a + b)[1..] == a[1..] + b;
        SinceAppend(a[1..], b, name);
      }
    } else if name in a {
      assert (a + b)[1..] == a[1..] + b;
      SinceAppend(a[1..], b, name);
    }
  }

  /** A lookup that touches `name` keeps its index and makes it the most recent one. */
  lemma {:induction false} LookedUp(s: Cache, max: nat, op: Op, name: Name, idx: nat, since: set<Name>)
    requires max >= 1 && WellFormed(s, max) && Touched(s, max, op) == [name] && !Finds(s, max, op, name)
    requires Holds(s, name, idx, since) || Gone(s, max, name, since)
    ensures Holds(Step(s, max, op), name, idx, {})
  {
    StepShape(s, max, op);
    var k := Hit(s, op);
    assert k < |s| && s[k].name == name;
    var j: nat :| j < |s| && HoldsAt(s, j, name, idx, since);
    assert j == k;
    var s1 := Step(s, max, op);
    assert s1[|s1| - 1] == s[k];
    NameSetNone();
    assert HoldsAt(s1, |s1| - 1, name, idx, {});
  }

  /** The names that count against `name` after a run, when those in `since` did before. */
  ghost function Against(since: set<Name>, trace: seq<Name>, name: Name): set<Name> {
    NameSet(Since(trace, name)) + if name in trace then {} else since
  }

  lemma {:induction false} AgainstStep(since: set<Name>, t: seq<Name>, r: seq<Name>, name: Name)
    requires name !in t || t == [name]
    ensures Against(since, t + r, name) == Against(if name in t then {} else since + NameSet(t), r, name)
  {
    SinceAppend(t, r, name);
    if name !in r {
      if name in t {
        assert Since([name], name) == [];
        assert [] + r == r;
      } else {
        NameSetAppend(t, r);
      }
    }
  }

  lemma {:induction false} RunSince(s: Cache, max: nat, ops: seq<Op>, name: Name, idx: nat, since: set<Name>)
    requires max >= 1 && WellFormed(s, max) && NeverFound(s, max, ops, name)
    requires Holds(s, name, idx, since) || Gone(s, max, name, since)
    ensures var s', since' := Run(s, max, ops), Against(since, Trace(s, max, ops), name);
      Holds(s', name, idx, since') || Gone(s', max, name, since')
    decreases |ops|
  {
    hide WellFormed, Holds, Gone, Step, Touched, Finds, NameSet;
    if ops == [] {
      NameSetNone();
      assert Against(since, [], name) == since;
    } else {
      var t, s1 := Touched(s, max, ops[0]), Step(s, max, ops[0]);
      StepWellFormed(s, max, ops[0]);
      TouchedOne(s, max, ops[0]);
      var next := if name in t then {} else since + NameSet(t);
      if name in t {
        LookedUp(s, max, ops[0], name, idx, since);
      } else {
        HeldOrGone(s, max, ops[0], name, idx, since);
      }
      RunSince(s1, max, ops[1..], name, idx, next);
      AgainstStep(since, t, Trace(s1, max, ops[1..]), name);
    }
  }

  lemma {:induction false} TouchedOne(s: Cache, max: nat, op: Op)
    requires max >= 1
    ensures |Touched(s, max, op)| <= 1
  {
  }

  lemma {:induction false} HeldOrGone(s: Cache, max: nat, op: Op, name: Name, idx: nat, since: set<Name>)
    requires max >= 1 && WellFormed(s, max) && name !in Touched(s, max, op)
    requires Holds(s, name, idx, since) || Gone(s, max, name, since)
    ensures var s', since' := Step(s, max, op), since + NameSet(Touched(s, max, op));
      Holds(s', name, idx, since') || Gone(s', max, name, since')
  {
    hide WellFormed, Holds, Gone, Step, Touched, NameSet;
    if Holds(s, name, idx, since) {
      StepHolds(s, max, op, name, idx, since);
    } else {
      StepGone(s, max, op, name, since);
    }
  }

  /** In any run from the empty cache, the index that the last find gave a name is still its
      index exactly when fewer than `max` other names were touched since the name's own last
      touch, by that find or by a later lookup. */
  lemma {:induction false} RunsRetain(max: nat, ops: seq<Op>, n: nat, name: Name)
    requires max >= 1 && n < |ops| && Finds(Run([], max, ops[..n]), max, ops[n], name)
    requires NeverFound(Run([], max, ops[..n + 1]), max, ops[n + 1..], name)
    ensures var idx := FindIdx(Run([], max, ops[..n]), max, name, ops[n].alloc);
      LookupName(Run([], max, ops), idx) == Some(name) <==> |NameSet(Since(Trace([], max, ops), name))| < max
  {
    hide WellFormed, Holds, Gone, Find, FindIdx, Run, Trace, NameSet, LookupName, NeverFound;
    var a, b := ops[..n], ops[n + 1..];
    var s := Run([], max, a);
    var s1, idx := Step(s, max, ops[n]), FindIdx(s, max, name, ops[n].alloc);
    assert ops[..n + 1] == a + [ops[n]] && ops == ops[..n + 1] + b;
    RunSnoc([], max, a, ops[n]);
    RunAppend([], max, ops[..n + 1], b);
    EmptyWellFormed(max);
    RunWellFormed([], max, a);
    StepWellFormed(s, max, ops[n]);
    JustFound(s, max, name, ops[n].alloc);
    RunSince(s1, max, b, name, idx, {});
    RunWellFormed(s1, max, b);
    var h, t := Trace([], max, a), Trace(s1, max, b);
    SinceAppend(h + [name], t, name);
    SinceAppend(h, [name], name);
    assert Since([name], name) == [];
    assert [] + t == t;
    assert Against({}, t, name) == NameSet(Since(h + [name] + t, name));
    RetainedIff(Run(s1, max, b), max, name, idx, Against({}, t, name));
  }

  lemma {:induction false} EmptyWellFormed(max: nat)
    ensures WellFormed([], max)
  {
  }

  lemma {:induction false} JustFound(s: Cache, max: nat, name: Name, alloc: bool)
    requires max >= 1 && FindIdx(s, max, name, alloc) >= 0
    ensures Holds(Find(s, max, name, alloc), name, FindIdx(s, max, name, alloc), {})
  {
    FindEntry(s, max, name, alloc);
    var s1 := Find(s, max, name, alloc);
    NameSetNone();
    assert HoldsAt(s1, |s1| - 1, name, FindIdx(s, max, name, alloc), {});
  }

  lemma {:induction false} RunAppend(s: Cache, max: nat, a: seq<Op>, b: seq<Op>)
    requires max >= 1
    ensures Run(s, max, a + b) == Run(Run(s, max, a), max, b)
    ensures Trace(s, max, a + b) == Trace(s, max, a) + Trace(Run(s, max, a), max, b)
    decreases |a|
  {
    if a == [] {
      assert a + b == b;
    } else {
      assert (a + b)[1..] == a[1..] + b && (a + b)[0] == a[0];
      RunAppend(Step(s, max, a[0]), max, a[1..], b);
    }
  }

  /** Every name that was touched along a run from the empty cache was found, so there is a
      last find of it. */
  lemma {:induction false} LastFind(max: nat, ops: seq<Op>, name: Name)
    requires max >= 1 && name in Trace([], max, ops)
    ensures exists n :: 0 <= n < |ops| && IsLastFind(max, ops, n, name)
    decreases |ops|
  {
    hide Finds, NeverFound, WellFormed;
    var m := |ops| - 1;
    assert ops == ops[..m] + [ops[m]];
    RunSnoc([], max, ops[..m], ops[m]);
    var s := Run([], max, ops[..m]);
    if Finds(s, max, ops[m], name) {
      NothingFound(Run([], max, ops[..m + 1]), max, name);
      assert ops[m + 1..] == [];
      assert IsLastFind(max, ops, m, name);
    } else {
      if name !in Trace([], max, ops[..m]) {
        NeverTouched(max, ops[..m], ops[m], name);
        assert false;
      }
      LastFind(max, ops[..m], name);
      var n :| 0 <= n < m && IsLastFind(max, ops[..m], n, name);
      LaterFind(max, ops[..m], ops[m], n, name);
    }
  }

  ghost predicate IsLastFind(max: nat, ops: seq<Op>, n: int, name: Name)
    requires max >= 1 && 0 <= n < |ops|
  {
    Finds(Run([], max, ops[..n]), max, ops[n], name) && NeverFound(Run([], max, ops[..n + 1]), max, ops[n + 1..], name)
  }

  lemma {:induction false} NothingFound(s: Cache, max: nat, name: Name)
    requires max >= 1
    ensures NeverFound(s, max, [], name)
  {
  }

  /** A name that was never touched is not in the cache, so only a find can touch it. */
  lemma {:induction false} NeverTouched(max: nat, ops: seq<Op>, op: Op, name: Name)
    requires max >= 1 && name !in Trace([], max, ops) && !Finds(Run([], max, ops), max, op, name)
    ensures name !in Touched(Run([], max, ops), max, op)
  {
    hide Run, Trace;
    var s := Run([], max, ops);
    ListIsLastTouchOrder(max, ops);
    LastTouchDistinct(Trace([], max, ops));
    EmptyWellFormed(max);
    RunWellFormed([], max, ops);
    StepShape(s, max, op);
    assert forall i :: 0 <= i < |s| ==> Names(s)[i] == s[i].name;
    assert forall y :: y in Names(s) ==> y in LastTouch(Trace([], max, ops));
  }

  lemma {:induction false} LaterFind(max: nat, ops: seq<Op>, op: Op, n: nat, name: Name)
    requires max >= 1 && n < |ops| && IsLastFind(max, ops, n, name) && !Finds(Run([], max, ops), max, op, name)
    ensures IsLastFind(max, ops + [op], n, name)
  {
    hide Finds, NeverFound, Run;
    var s, b := Run([], max, ops[..n + 1]), ops[n + 1..];
    Cut(ops, op, n);
    RunAppend([], max, ops[..n + 1], b);
    NeverFoundSnoc(s, max, b, op, name);
  }

  lemma {:induction false} Cut(ops: seq<Op>, op: Op, n: nat)
    requires n < |ops|
    ensures var all := ops + [op];
      && all[..n] == ops[..n] && all[..n + 1] == ops[..n + 1] && all[n] == ops[n]
      && all[n + 1..] == ops[n + 1..] + [op] && ops == ops[..n + 1] + ops[n + 1..]
  {
  }

  lemma {:induction false} NeverFoundSnoc(s: Cache, max: nat, ops: seq<Op>, op: Op, name: Name)
    requires max >= 1 && NeverFound(s, max, ops, name) && !Finds(Run(s, max, ops), max, op, name)
    ensures NeverFound(s, max, ops + [op], name)
    decreases |ops|
  {
    hide Finds;
    if ops == [] {
      assert (ops + [op])[1..] == [];
    } else {
      assert (ops + [op])[1..] == ops[1..] + [op] && (ops + [op])[0] == ops[0];
      NeverFoundSnoc(Step(s, max, ops[0]), max, ops[1..], op, name);
    }
  }

  lemma {:induction false} RetainedIff(s: Cache, max: nat, name: Name, idx: nat, since: set<Name>)
    requires WellFormed(s, max) && (Holds(s, name, idx, since) || Gone(s, max, name, since))
    ensures LookupName(s, idx) == Some(name) <==> |since| < max
  {
    if Holds(s, name, idx, since) {
      var k: nat :| k < |s| && HoldsAt(s, k, name, idx, since);
      LookupAt(s, max, k);
      NameSetSize(Names(s)[k + 1..]);
    }
  }
}
