/** The grammar of YAML event streams: a stream of documents, each one node, with
    sequences and mappings nested properly and mappings holding whole pairs. */
module YamlGrammar {
  import opened Basics
  import opened YamlNodes

  datatype StreamEvent = StreamStart | DocumentStart | StreamEnd | InDocument(e: Event)

  /** An open collection; in a mapping, whether a key or a value comes next. */
  datatype Frame = Seq | Map(keyNext: bool)

  /** How far a stream has come: `rooted` once the document's node has started. */
  datatype Progress = Fresh | Between | Doc(frames: seq<Frame>, rooted: bool) | Over

  function Advance(f: Frame): Frame {
    match f case Seq => Seq case Map(k) => Map(!k)
  }

  /** Another node may start. */
  predicate Open(g: Progress) {
    g.Doc? && (g.frames == [] ==> !g.rooted)
  }

  /** A node has started. */
  function Started(g: Progress): Progress {
    if !g.Doc? then g
    else if g.frames == [] then Doc([], true)
    else Doc(g.frames[..|g.frames| - 1] + [Advance(g.frames[|g.frames| - 1])], true)
  }

  function Pushed(g: Progress, f: Frame): Progress {
    if g.Doc? then Doc(g.frames + [f], true) else g
  }

  /** The innermost open collection is `f`. */
  predicate Inside(g: Progress, f: Frame) {
    g.Doc? && g.frames != [] && g.frames[|g.frames| - 1] == f
  }

  function Closed(g: Progress): Progress {
    if g.Doc? && g.frames != [] then Doc(g.frames[..|g.frames| - 1], true) else g
  }

  function Accept(g: Progress, e: StreamEvent): Option<Progress> {
    match e
    case StreamStart => if g == Fresh then Some(Between) else None
    case DocumentStart => if g == Between then Some(Doc([], false)) else None
    case StreamEnd => if g == Between then Some(Over) else None
    case InDocument(d) =>
      match d
      case Alias(_) => if Open(g) then Some(Started(g)) else None
      case Scalar(_, _, _) => if Open(g) then Some(Started(g)) else None
      case SequenceStart(_, _) => if Open(g) then Some(Pushed(Started(g), Seq)) else None
      case MappingStart(_, _) => if Open(g) then Some(Pushed(Started(g), Map(true))) else None
      case SequenceEnd => if Inside(g, Seq) then Some(Closed(g)) else None
      case MappingEnd => if Inside(g, Map(true)) then Some(Closed(g)) else None
      case DocumentEnd => if g == Doc([], true) then Some(Between) else None
  }

  function Run(g: Progress, es: seq<StreamEvent>): Option<Progress>
    decreases |es|
  {
    if es == [] then Some(g)
    else
      var h := Accept(g, es[0]);
      if h.None? then None else Run(h.value, es[1..])
  }

  lemma {:induction false} RunAppend(g: Progress, a: seq<StreamEvent>, b: seq<StreamEvent>)
    ensures Run(g, a + b) == var h := Run(g, a); if h.Some? then Run(h.value, b) else None
    decreases |a|
  {
    if a == [] {
      assert a + b == b;
    } else {
      assert (a + b)[1..] == a[1..] + b && (a + b)[0] == a[0];
      var h := Accept(g, a[0]);
      if h.Some? { RunAppend(h.value, a[1..], b); }
    }
  }

  // ---------- the grammar means trees ----------

  function Lift(es: seq<Event>): seq<StreamEvent> {
    seq(|es|, i requires 0 <= i < |es| => InDocument(es[i]))
  }

  function EndOf(f: Frame): Event {
    match f case Seq => SequenceEnd case Map(_) => MappingEnd
  }

  /** The progress is back at `depth` open collections, or past the document. */
  predicate AtMost(g: Progress, depth: nat) {
    g.Doc? ==> |g.frames| <= depth
  }

  /** A frame closes only with all its pairs whole. */
  predicate Fits(f: Frame, n: nat) {
    match f case Seq => true case Map(k) => (n % 2 == 0) == k
  }

  lemma {:induction false} LiftRest(es: seq<Event>)
    requires es != []
    ensures Lift(es)[0] == InDocument(es[0]) && Lift(es)[1..] == Lift(es[1..])
  {
  }

  /** One event inside an open collection `f`. */
  lemma {:induction false} OneEvent(base: seq<Frame>, f: Frame, e: Event)
    requires Accept(Doc(base + [f], true), InDocument(e)).Some?
    ensures var h := Accept(Doc(base + [f], true), InDocument(e)).value;
      && (e.SequenceEnd? || e.MappingEnd? ==> e == EndOf(f) && (f.Map? ==> f.keyNext) && h == Doc(base, true))
      && (e.Alias? || e.Scalar? ==> h == Doc(base + [Advance(f)], true))
      && (e.SequenceStart? ==> h == Doc(base + [Advance(f)] + [Seq], true))
      && (e.MappingStart? ==> h == Doc(base + [Advance(f)] + [Map(true)], true))
      && !e.DocumentEnd?
  {
    var fs := base + [f];
    assert fs[|fs| - 1] == f && fs[..|fs| - 1] == base;
  }

  /** The events from inside a collection on: the events of whole nodes and its end. */
  lemma {:induction false} Collect(es: seq<Event>, base: seq<Frame>, f: Frame) returns (ts: seq<Tree>, n: nat)
    requires Run(Doc(base + [f], true), Lift(es)).Some? && AtMost(Run(Doc(base + [f], true), Lift(es)).value, |base|)
    ensures n <= |es| && es[..n] == EventsAll(ts) + [EndOf(f)] && EvenAll(ts) && Fits(f, |ts|)
    ensures Run(Doc(base + [f], true), Lift(es)) == Run(Doc(base, true), Lift(es[n..])) && n >= 1
    decreases |es|
  {
    hide Accept, Events, EventsAll, Even, EvenAll, Run, Lift;
    NotEmpty(es, base, f);
    var e, rest := es[0], es[1..];
    LiftRest(es);
    OneEvent(base, f, e);
    if e.SequenceEnd? || e.MappingEnd? {
      ts, n := [], 1;
      CloseTree(f);
      assert es[..1] == [e] && [] + [e] == [e];
    } else if e.Alias? || e.Scalar? {
      var us, k := Collect(rest, base, Advance(f));
      var t := if e.Alias? then AliasTree(e.anchor) else ScalarTree(e.name, e.tag, e.text);
      LeafTree(t, e, us);
      OneMore(f, |us|);
      ts, n := [t] + us, 1 + k;
      FirstAndRest(es, k);
      Regroup([e], EventsAll(us), [EndOf(f)]);
    } else {
      var inner := if e.SequenceStart? then Seq else Map(true);
      var ks, m := Collect(rest, base + [Advance(f)], inner);
      var us, k := Collect(rest[m..], base, Advance(f));
      var t := if e.SequenceStart? then SequenceTree(e.name, e.tag, ks) else MappingTree(e.name, e.tag, ks);
      NodeTree(t, e, ks, us);
      OneMore(f, |us|);
      ts, n := [t] + us, 1 + m + k;
      FirstAndTwo(es, m, k);
      Regroup([e] + (EventsAll(ks) + [EndOf(inner)]), EventsAll(us), [EndOf(f)]);
    }
  }

  lemma {:induction false} FirstAndRest(es: seq<Event>, k: nat)
    requires 1 + k <= |es|
    ensures es[..1 + k] == [es[0]] + es[1..][..k] && es[1 + k..] == es[1..][k..]
  {
  }

  lemma {:induction false} FirstAndTwo(es: seq<Event>, m: nat, k: nat)
    requires 1 + m + k <= |es|
    ensures es[..1 + m + k] == [es[0]] + es[1..][..m] + es[1..][m..][..k] && es[1 + m + k..] == es[1..][m..][k..]
  {
    FirstAndRest(es, m + k);
    var r := es[1..];
    assert r[..m + k] == r[..m] + r[m..][..k] && r[m + k..] == r[m..][k..];
  }

  lemma {:induction false} NotEmpty(es: seq<Event>, base: seq<Frame>, f: Frame)
    requires Run(Doc(base + [f], true), Lift(es)).Some? && AtMost(Run(Doc(base + [f], true), Lift(es)).value, |base|)
    ensures es != []
    ensures var h := Accept(Doc(base + [f], true), Lift(es)[0]);
      h.Some? && Run(Doc(base + [f], true), Lift(es)) == Run(h.value, Lift(es)[1..])
  {
  }

  lemma {:induction false} Regroup(a: seq<Event>, b: seq<Event>, c: seq<Event>)
    ensures a + (b + c) == (a + b) + c
  {
  }

  lemma {:induction false} CloseTree(f: Frame)
    ensures EventsAll([]) == [] && EvenAll([]) && (f.Seq? || f == Map(true) ==> Fits(f, 0))
  {
  }

  lemma {:induction false} OneMore(f: Frame, n: nat)
    requires Fits(Advance(f), n)
    ensures Fits(f, n + 1)
  {
  }

  lemma {:induction false} LeafTree(t: Tree, e: Event, us: seq<Tree>)
    requires (e.Alias? && t == AliasTree(e.anchor)) || (e.Scalar? && t == ScalarTree(e.name, e.tag, e.text))
    requires EvenAll(us)
    ensures EventsAll([t] + us) == [e] + EventsAll(us) && EvenAll([t] + us)
  {
    assert ([t] + us)[1..] == us;
  }

  lemma {:induction false} NodeTree(t: Tree, e: Event, ks: seq<Tree>, us: seq<Tree>)
    requires (e.SequenceStart? && t == SequenceTree(e.name, e.tag, ks)) ||
      (e.MappingStart? && t == MappingTree(e.name, e.tag, ks))
    requires EvenAll(ks) && EvenAll(us) && Fits(if e.SequenceStart? then Seq else Map(true), |ks|)
    ensures EvenAll([t] + us)
    ensures EventsAll([t] + us) == [e] + (EventsAll(ks) + [EndOf(if e.SequenceStart? then Seq else Map(true))]) +
      EventsAll(us)
  {
    assert ([t] + us)[1..] == us;
    assert [e] + EventsAll(ks) + [EndOf(if e.SequenceStart? then Seq else Map(true))] ==
      [e] + (EventsAll(ks) + [EndOf(if e.SequenceStart? then Seq else Map(true))]);
  }

  /** Events that take a document from its start to its end are those of one whole node. */
  lemma {:induction false} DocumentsAreTrees(es: seq<Event>)
    requires Run(Doc([], false), Lift(es)) == Some(Between)
    ensures IsDocument(es)
  {
    hide Run, Lift, EventsAll, EvenAll;
    FirstEvent(es);
    var e, rest := es[0], es[1..];
    LiftRest(es);
    if e.Alias? || e.Scalar? {
      DocumentTail(rest);
      var t := if e.Alias? then AliasTree(e.anchor) else ScalarTree(e.name, e.tag, e.text);
      assert Even(t) && es == Events(t) + [DocumentEnd];
    } else {
      var f := if e.SequenceStart? then Seq else Map(true);
      assert [] + [f] == [f];
      var ks, m := Collect(rest, [], f);
      DocumentTail(rest[m..]);
      var t := if e.SequenceStart? then SequenceTree(e.name, e.tag, ks) else MappingTree(e.name, e.tag, ks);
      assert es == [e] + rest[..m] + rest[m..];
      assert Events(t) == [e] + (EventsAll(ks) + [EndOf(f)]);
      assert Even(t) && es == Events(t) + [DocumentEnd];
    }
  }

  lemma {:induction false} FirstEvent(es: seq<Event>)
    requires Run(Doc([], false), Lift(es)) == Some(Between)
    ensures es != [] && Accept(Doc([], false), InDocument(es[0])).Some?
    ensures Run(Accept(Doc([], false), InDocument(es[0])).value, Lift(es)[1..]) == Some(Between)
  {
  }

  lemma {:induction false} DocumentTail(es: seq<Event>)
    requires Run(Doc([], true), Lift(es)) == Some(Between)
    ensures es == [DocumentEnd]
  {
    assert es != [];
    LiftRest(es);
    if |es| > 1 { LiftRest(es[1..]); }
  }

  // ---------- and every tree is in the grammar ----------

  function Steps(f: Frame, n: nat): Frame {
    match f case Seq => Seq case Map(k) => Map(if n % 2 == 0 then k else !k)
  }

  lemma {:induction false} LiftAppend(a: seq<Event>, b: seq<Event>)
    ensures Lift(a + b) == Lift(a) + Lift(b)
  {
  }

  lemma {:induction false} RunOne(g: Progress, e: Event)
    ensures Run(g, Lift([e])) == Accept(g, InDocument(e))
  {
    assert Lift([e]) == [InDocument(e)];
  }

  lemma {:induction false} RunTree(t: Tree, g: Progress)
    requires Even(t) && Open(g)
    ensures Run(g, Lift(Events(t))) == Some(Started(g))
    decreases t, 1
  {
    match t
    case AliasTree(a) => RunOne(g, Alias(a));
    case ScalarTree(a, tag, v) => RunOne(g, Scalar(a, tag, v));
    case SequenceTree(a, tag, kids) => RunCollection(kids, g, Seq, SequenceStart(a, tag));
    case MappingTree(a, tag, kids) => RunCollection(kids, g, Map(true), MappingStart(a, tag));
  }

  lemma {:induction false} RunCollection(kids: seq<Tree>, g: Progress, f: Frame, start: Event)
    requires EvenAll(kids) && Open(g) && (f == Seq || (f == Map(true) && |kids| % 2 == 0))
    requires Accept(g, InDocument(start)) == Some(Pushed(Started(g), f))
    ensures Run(g, Lift([start] + EventsAll(kids) + [EndOf(f)])) == Some(Started(g))
    decreases kids, 2
  {
    hide Run, Accept, EvenAll, EventsAll, Lift;
    var h := Started(g);
    LiftAppend([start] + EventsAll(kids), [EndOf(f)]);
    LiftAppend([start], EventsAll(kids));
    RunAppend(g, Lift([start]) + Lift(EventsAll(kids)), Lift([EndOf(f)]));
    RunAppend(g, Lift([start]), Lift(EventsAll(kids)));
    RunOne(g, start);
    RunForest(kids, h.frames, f);
    RunOne(Doc(h.frames + [f], true), EndOf(f));
    CloseFrame(h.frames, f);
  }

  lemma {:induction false} CloseFrame(base: seq<Frame>, f: Frame)
    requires f == Seq || f == Map(true)
    ensures Accept(Doc(base + [f], true), InDocument(EndOf(f))) == Some(Doc(base, true))
  {
    assert (base + [f])[..|base|] == base;
  }

  lemma {:induction false} RunForest(ts: seq<Tree>, base: seq<Frame>, f: Frame)
    requires EvenAll(ts)
    ensures Run(Doc(base + [f], true), Lift(EventsAll(ts))) == Some(Doc(base + [Steps(f, |ts|)], true))
    decreases ts, 0
  {
    var g := Doc(base + [f], true);
    if ts != [] {
      LiftAppend(Events(ts[0]), EventsAll(ts[1..]));
      RunAppend(g, Lift(Events(ts[0])), Lift(EventsAll(ts[1..])));
      RunTree(ts[0], g);
      assert (base + [f])[..|base|] == base;
      RunForest(ts[1..], base, Advance(f));
      assert Steps(Advance(f), |ts| - 1) == Steps(f, |ts|);
    }
  }

  /** The grammar accepts exactly the documents. */
  lemma {:induction false} DocumentIff(es: seq<Event>)
    ensures Run(Doc([], false), Lift(es)) == Some(Between) <==> IsDocument(es)
  {
    if Run(Doc([], false), Lift(es)) == Some(Between) {
      DocumentsAreTrees(es);
    }
    if IsDocument(es) {
      var t :| Even(t) && es == Events(t) + [DocumentEnd];
      LiftAppend(Events(t), [DocumentEnd]);
      RunAppend(Doc([], false), Lift(Events(t)), Lift([DocumentEnd]));
      RunTree(t, Doc([], false));
      RunOne(Doc([], true), DocumentEnd);
    }
  }

  /** Every document inside an accepted stream, from its start to its end event, is one
      that the loader expects. */
  lemma {:induction false} DocumentsInStream(pre: seq<StreamEvent>, es: seq<Event>, post: seq<StreamEvent>)
    requires Run(Fresh, pre + [DocumentStart] + Lift(es) + post).Some? && es != [] && es[|es| - 1] == DocumentEnd
    ensures IsDocument(es)
  {
    var n := |es| - 1;
    RunAppend(Fresh, pre + [DocumentStart] + Lift(es), post);
    RunAppend(Fresh, pre + [DocumentStart], Lift(es));
    RunAppend(Fresh, pre, [DocumentStart]);
    assert Run(Fresh, pre + [DocumentStart]) == Some(Doc([], false));
    assert es == es[..n] + [DocumentEnd];
    LiftAppend(es[..n], [DocumentEnd]);
    RunAppend(Doc([], false), Lift(es[..n]), Lift([DocumentEnd]));
    RunOne(Run(Doc([], false), Lift(es[..n])).value, DocumentEnd);
    DocumentIff(es);
  }
}
