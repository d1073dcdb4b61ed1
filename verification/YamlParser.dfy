/** The event parser of parser.c: a state machine with a stack of states to return to.
    Whatever the scanner delivers, its events follow the grammar. */
module YamlParser {
  import opened Basics
  import opened YamlNodes
  import opened YamlGrammar
  import opened YamlStates

  // ---------- what a state says about the open collections ----------

  /** The collections that a state is inside of, beyond those of the states below it. */
  function FramesOf(s: State): seq<Frame> {
    match s
    case BlockSequenceFirst => [Seq]
    case BlockSequenceEntry => [Seq]
    case IndentlessEntry => [Seq]
    case FlowSequenceFirst => [Seq]
    case FlowSequenceEntry => [Seq]
    case BlockMappingFirst => [Map(true)]
    case BlockMappingKey => [Map(true)]
    case BlockMappingValue => [Map(false)]
    case FlowMappingFirst => [Map(true)]
    case FlowMappingKey => [Map(true)]
    case FlowMappingValue => [Map(false)]
    case FlowMappingEmptyValue => [Map(false)]
    case EntryMappingKey => [Seq, Map(true)]
    case EntryMappingValue => [Seq, Map(false)]
    case EntryMappingEnd => [Seq, Map(true)]
    case _ => []
  }

  /** Marks remembered for a state: one per collection that is really entered. */
  function MarksOf(s: State): nat {
    if First(s) || s == IndentlessEntry then 0 else if FramesOf(s) != [] then 1 else 0
  }

  /** A collection whose start token is still to be skipped. */
  predicate First(s: State) {
    s == BlockSequenceFirst || s == BlockMappingFirst || s == FlowSequenceFirst || s == FlowMappingFirst
  }

  /** A state to return to after a nested node. */
  predicate Returns(s: State) {
    FramesOf(s) != [] && !First(s) && s != EntryMappingKey
  }

  function FramesAll(states: seq<State>): seq<Frame> {
    if states == [] then [] else FramesAll(states[..|states| - 1]) + FramesOf(states[|states| - 1])
  }

  function MarksAll(states: seq<State>): nat {
    if states == [] then 0 else MarksAll(states[..|states| - 1]) + MarksOf(states[|states| - 1])
  }

  /** At the bottom the end of the document, above it collections. */
  ghost predicate Stacked(states: seq<State>) {
    states != [] && states[0] == AtDocumentEnd && forall i :: 1 <= i < |states| ==> Returns(states[i])
  }

  /** A node is to be parsed and then the top state resumed. */
  ghost predicate Expecting(states: seq<State>, marks: nat, g: Progress) {
    Stacked(states) && Open(g) && Started(g) == Doc(FramesAll(states), true) && marks == MarksAll(states)
  }

  /** State, stacks and the progress of the emitted events agree. */
  ghost predicate Agree(s: State, states: seq<State>, marks: nat, g: Progress) {
    match s
    case AtStreamStart => states == [] && marks == 0 && g == Fresh
    case AtImplicitDocument => states == [] && marks == 0 && g == Between
    case AtDocument => states == [] && marks == 0 && g == Between
    case AtEnd => states == [] && marks == 0 && g == Over
    case AtDocumentEnd => states == [] && marks == 0 && g == Doc([], true)
    case DocumentContent => Expecting(states, marks, g) && |states| == 1
    case BlockNode => Expecting(states, marks, g) && |states| == 1
    case BlockNodeOrIndentless => Expecting(states, marks, g) && |states| == 1
    case FlowNode => Expecting(states, marks, g) && |states| == 1
    case _ => Collecting(s, states, marks, g)
  }

  /** Inside a collection. */
  ghost predicate Collecting(s: State, states: seq<State>, marks: nat, g: Progress) {
    Stacked(states) && g == Doc(FramesAll(states) + FramesOf(s), true) && marks == MarksAll(states) + MarksOf(s)
  }

  lemma {:induction false} Push(states: seq<State>, s: State)
    ensures FramesAll(states + [s]) == FramesAll(states) + FramesOf(s) &&
      MarksAll(states + [s]) == MarksAll(states) + MarksOf(s)
  {
    assert (states + [s])[..|states|] == states;
  }

  /** After a node in state `s` the collection goes on in state `next`. */
  ghost predicate GoesOn(s: State, next: State) {
    var f := FramesOf(s);
    Returns(next) && f != [] && MarksOf(next) == MarksOf(s) && FramesOf(next) == f[..|f| - 1] + [Advance(f[|f| - 1])]
  }

  lemma {:induction false} OneFrame(s: State, next: State, f: Frame)
    requires FramesOf(s) == [f] && FramesOf(next) == [Advance(f)] && Returns(next) && MarksOf(next) == MarksOf(s)
    ensures GoesOn(s, next)
  {
    hide FramesOf, MarksOf, Returns;
    assert [f][..0] == [];
  }

  lemma {:induction false} EntriesGoOn()
    ensures GoesOn(BlockSequenceEntry, BlockSequenceEntry) && GoesOn(IndentlessEntry, IndentlessEntry)
    ensures GoesOn(FlowSequenceEntry, FlowSequenceEntry)
  {
    hide GoesOn;
    OneFrame(BlockSequenceEntry, BlockSequenceEntry, Seq);
    OneFrame(IndentlessEntry, IndentlessEntry, Seq);
    OneFrame(FlowSequenceEntry, FlowSequenceEntry, Seq);
  }

  lemma {:induction false} BlockPairsGoOn()
    ensures GoesOn(BlockMappingKey, BlockMappingValue) && GoesOn(BlockMappingValue, BlockMappingKey)
  {
    hide GoesOn;
    OneFrame(BlockMappingKey, BlockMappingValue, Map(true));
    OneFrame(BlockMappingValue, BlockMappingKey, Map(false));
  }

  lemma {:induction false} FlowPairsGoOn()
    ensures GoesOn(FlowMappingKey, FlowMappingValue) && GoesOn(FlowMappingValue, FlowMappingKey)
    ensures GoesOn(FlowMappingKey, FlowMappingEmptyValue) && GoesOn(FlowMappingEmptyValue, FlowMappingKey)
  {
    hide GoesOn;
    OneFrame(FlowMappingKey, FlowMappingValue, Map(true));
    OneFrame(FlowMappingValue, FlowMappingKey, Map(false));
    OneFrame(FlowMappingKey, FlowMappingEmptyValue, Map(true));
    OneFrame(FlowMappingEmptyValue, FlowMappingKey, Map(false));
  }

  lemma {:induction false} EntryPairsGoOn()
    ensures GoesOn(EntryMappingKey, EntryMappingValue) && GoesOn(EntryMappingValue, EntryMappingEnd)
  {
    hide GoesOn;
    TwoFramesOn(EntryMappingKey, EntryMappingValue, true);
    TwoFramesOn(EntryMappingValue, EntryMappingEnd, false);
  }

  lemma {:induction false} TwoFramesOn(s: State, next: State, k: bool)
    requires FramesOf(s) == [Seq, Map(k)] && FramesOf(next) == [Seq, Map(!k)] && Returns(next) &&
      MarksOf(next) == MarksOf(s)
    ensures GoesOn(s, next)
  {
    hide FramesOf, MarksOf, Returns;
    assert [Seq, Map(k)][..1] == [Seq];
  }

  /** Parsing a nested node that will come back in state `c`. */
  lemma {:induction false} PushAgrees(s: State, c: State, states: seq<State>, marks: nat, g: Progress)
    requires Collecting(s, states, marks, g) && GoesOn(s, c)
    ensures Open(g) && Expecting(states + [c], MarksAll(states) + MarksOf(c), g)
    ensures Collecting(c, states, MarksAll(states) + MarksOf(c), Started(g))
  {
    hide FramesAll, MarksAll, Stacked, Started, FramesOf, MarksOf, Returns;
    Push(states, c);
    StackMore(states, c);
    StepFrames(FramesAll(states), FramesOf(s));
    assert Open(g);
  }

  lemma {:induction false} MarksKept(s: State, c: State, states: seq<State>, marks: nat, g: Progress)
    requires Collecting(s, states, marks, g) && GoesOn(s, c)
    ensures MarksAll(states) + MarksOf(c) == marks
  {
  }

  lemma {:induction false} StackMore(states: seq<State>, c: State)
    requires Stacked(states) && Returns(c)
    ensures Stacked(states + [c])
  {
    hide Returns;
  }

  lemma {:induction false} StepFrames(base: seq<Frame>, f: seq<Frame>)
    requires f != []
    ensures Started(Doc(base + f, true)) == Doc(base + (f[..|f| - 1] + [Advance(f[|f| - 1])]), true)
  {
    var fs := base + f;
    assert fs[..|fs| - 1] == base + f[..|f| - 1];
  }

  /** A finished node: the top state resumes. */
  lemma {:induction false} PopAgrees(states: seq<State>, marks: nat, g: Progress)
    requires Stacked(states) && marks == MarksAll(states) && g == Doc(FramesAll(states), true)
    ensures var n := |states| - 1; !First(states[n]) && Agree(states[n], states[..n], marks, g)
  {
    hide FramesAll, MarksAll, Agree;
    var n := |states| - 1;
    assert states[..n] + [states[n]] == states;
    Push(states[..n], states[n]);
    if n == 0 {
      Bottom(states[..0], marks, g);
    } else {
      Inner(states[n], states[..n], marks, g);
    }
  }

  lemma {:induction false} Bottom(states: seq<State>, marks: nat, g: Progress)
    requires states == [] && marks == MarksAll(states) && g == Doc(FramesAll(states), true)
    ensures Agree(AtDocumentEnd, states, marks, g)
  {
  }

  lemma {:induction false} Inner(s: State, states: seq<State>, marks: nat, g: Progress)
    requires Collecting(s, states, marks, g) && Returns(s)
    ensures Agree(s, states, marks, g)
  {
    hide FramesAll, MarksAll, Stacked;
  }

  /** A collection that ends: the state below resumes. */
  lemma {:induction false} EndAccepted(g: Progress, f: Frame)
    requires Inside(g, f) && (f == Seq || f == Map(true))
    ensures Accept(g, InDocument(EndOf(f))) == Some(YamlGrammar.Closed(g))
  {
  }

  lemma {:induction false} EndAgrees(s: State, states: seq<State>, marks: nat, g: Progress)
    requires Collecting(s, states, marks, g) && |FramesOf(s)| == 1 &&
      (FramesOf(s)[0] == Seq || FramesOf(s)[0] == Map(true))
    ensures Inside(g, FramesOf(s)[0]) && states != [] && marks == MarksAll(states) + MarksOf(s)
    ensures var n := |states| - 1;
      !First(states[n]) && Agree(states[n], states[..n], MarksAll(states), YamlGrammar.Closed(g))
  {
    var fs := FramesAll(states) + FramesOf(s);
    assert fs[..|fs| - 1] == FramesAll(states);
    PopAgrees(states, MarksAll(states), YamlGrammar.Closed(g));
  }

  /** A collection that starts. */
  lemma {:induction false} StartAgrees(states: seq<State>, marks: nat, g: Progress, first: State)
    requires Expecting(states, marks, g)
    requires First(first) || first == IndentlessEntry
    ensures Collecting(first, states, marks, Pushed(Started(g), FramesOf(first)[0]))
  {
    hide FramesAll, MarksAll, Stacked, Started;
  }

  /** A node that is a single event. */
  lemma {:induction false} ResumeAgrees(states: seq<State>, marks: nat, g: Progress, e: Event)
    requires Expecting(states, marks, g) && (e.Alias? || e.Scalar?)
    ensures Accept(g, InDocument(e)) == Some(Started(g)) && states != []
    ensures var n := |states| - 1; !First(states[n]) && Agree(states[n], states[..n], marks, Started(g))
  {
    hide FramesAll, MarksAll, Started, Agree;
    PopAgrees(states, marks, Started(g));
  }

  /** A node that is left out counts as an empty scalar. */
  lemma {:induction false} OmittedAgrees(s: State, next: State, states: seq<State>, marks: nat, g: Progress)
    requires Collecting(s, states, marks, g) && GoesOn(s, next)
    ensures Accept(g, InDocument(Scalar(None, None, ""))) == Some(Started(g)) && !First(next) &&
      Agree(next, states, marks, Started(g))
  {
    hide FramesAll, MarksAll, Stacked, Started;
    PushAgrees(s, next, states, marks, g);
  }

  lemma {:induction false} EnterAgrees(states: seq<State>, marks: nat, g: Progress, first: State,
                                       anchor: Option<string>, tag: Option<string>)
    requires Expecting(states, marks, g) && (First(first) || first == IndentlessEntry)
    ensures var h := Pushed(Started(g), FramesOf(first)[0]);
      var e := if FramesOf(first) == [Seq] then SequenceStart(anchor, tag) else MappingStart(anchor, tag);
      Accept(g, InDocument(e)) == Some(h) && Agree(first, states, marks, h)
  {
    hide FramesAll, MarksAll, Started, Stacked, Pushed;
    StartAgrees(states, marks, g, first);
  }

  class Parser {
    /** The tokens that the scanner will deliver; after them it fails. */
    var tokens: seq<Token>
    var taken: nat
    var state: State
    var states: seq<State>
    /** Where the open collections started. */
    var marks: seq<nat>
    var directives: seq<Directive>
    var error: bool
    /** How far the emitted events have come. */
    ghost var g: Progress

    ghost predicate Valid()
      reads this
    {
      Agree(state, states, |marks|, g) && (First(state) ==> tokens != [])
    }

    /** The part of the state that decides how it goes on. */
    ghost function Now(): Parsing
      reads this
    {
      Parsing(tokens, state, states, directives)
    }

    constructor (tokens: seq<Token>)
      ensures Valid() && g == Fresh && !error && Now() == Parsing(tokens, AtStreamStart, [], [])
    {
      this.tokens := tokens;
      taken, state, states, marks, directives, error, g := 0, AtStreamStart, [], [], [], false, Fresh;
    }

    method Skip()
      requires tokens != []
      modifies this`tokens, this`taken
      ensures tokens == old(tokens)[1..]
    {
      tokens, taken := tokens[1..], taken + 1;
    }

    /** The node that was expected is a single event; the state on top resumes. */
    method Resume(e: Event)
      requires Expecting(states, |marks|, g) && (e.Alias? || e.Scalar?)
      modifies this`state, this`states, this`g
      ensures Valid() && !First(state) && Accept(old(g), InDocument(e)) == Some(g)
      ensures Now() == Popped(old(Now()))
    {
      hide Expecting, Agree, Accept, Started;
      ResumeAgrees(states, |marks|, g, e);
      g := Started(g);
      state, states := states[|states| - 1], states[..|states| - 1];
    }

    /** The collection of the current state ends. */
    method Finish() returns (e: Event)
      requires Collecting(state, states, |marks|, g) && MarksOf(state) <= 1
      requires FramesOf(state) == [Seq] || FramesOf(state) == [Map(true)]
      modifies this`state, this`states, this`marks, this`g
      ensures Valid() && !First(state) && e == EndOf(FramesOf(old(state))[0]) &&
        Accept(old(g), InDocument(e)) == Some(g)
      ensures Now() == Popped(old(Now()))
    {
      hide Agree, Collecting, MarksAll, FramesAll, YamlGrammar.Closed, Inside, Accept, FramesOf, MarksOf;
      e := EndOf(FramesOf(state)[0]);
      EndAgrees(state, states, |marks|, g);
      EndAccepted(g, FramesOf(state)[0]);
      g := YamlGrammar.Closed(g);
      if MarksOf(state) == 1 {
        marks := marks[..|marks| - 1];
      }
      state, states := states[|states| - 1], states[..|states| - 1];
    }

    /** The collection of the current state ends with the next token. */
    method FinishHere() returns (e: Event)
      requires Collecting(state, states, |marks|, g) && MarksOf(state) <= 1 && tokens != []
      requires FramesOf(state) == [Seq] || FramesOf(state) == [Map(true)]
      modifies this`state, this`states, this`marks, this`g, this`tokens, this`taken
      ensures Valid() && e == EndOf(FramesOf(old(state))[0]) && Accept(old(g), InDocument(e)) == Some(g)
      ensures Now() == Popped(Rest(old(Now())))
    {
      hide Agree, Collecting, Accept, FramesOf, MarksOf, Popped;
      RestPopped(Now());
      e := Finish();
      Skip();
    }

    /** A collection starts; its first token is still there. */
    method Enter(first: State, anchor: Option<string>, tag: Option<string>) returns (e: Event)
      requires Expecting(states, |marks|, g) && (First(first) || first == IndentlessEntry) && tokens != []
      modifies this`state, this`g
      ensures Valid() && Accept(old(g), InDocument(e)) == Some(g)
      ensures e == if FramesOf(first) == [Seq] then SequenceStart(anchor, tag) else MappingStart(anchor, tag)
      ensures Now() == old(Now()).(state := first)
    {
      hide Expecting, Agree, Accept, Started, Pushed;
      EnterAgrees(states, |marks|, g, first, anchor, tag);
      e := if FramesOf(first) == [Seq] then SequenceStart(anchor, tag) else MappingStart(anchor, tag);
      g := Pushed(Started(g), FramesOf(first)[0]);
      state := first;
    }

    /** Skips the start token of a collection and remembers where it was. */
    method Begin(entry: State)
      requires Collecting(state, states, |marks|, g) && First(state) && tokens != []
      requires Returns(entry) && MarksOf(entry) == 1 && FramesOf(entry) == FramesOf(state)
      modifies this`state, this`marks, this`tokens, this`taken
      ensures Collecting(state, states, |marks|, g) && state == entry
      ensures Now() == Rest(old(Now())).(state := entry)
    {
      marks := marks + [taken];
      Skip();
      state := entry;
    }

    /** `yaml_parser_parse_node`: properties, then the content. */
    method ParseNode(block: bool, indentless: bool) returns (ok: bool, e: Event)
      requires Expecting(states, |marks|, g)
      modifies this
      ensures ok ==> Valid() && Accept(old(g), InDocument(e)) == Some(g) && error == old(error)
      ensures !ok ==> error
      ensures Follows(NodeMove(old(Now()), block, indentless), ok, e, Now())
    {
      hide Agree, Expecting, Accept, Popped;
      ok, e := false, DocumentEnd;
      if tokens == [] {
        error := true;
        return;
      }
      if tokens[0].AliasToken? {
        e := Alias(tokens[0].anchor);
        RestPopped(Now());
        Resume(e);
        Skip();
        ok := true;
        return;
      }
      var good, anchor, tag := Properties();
      if !good || tokens == [] {
        error := true;
        return;
      }
      ok, e := Content(anchor, tag, block, indentless);
    }

    /** The content of a node behind its properties. */
    method Content(anchor: Option<string>, tag: Option<string>, block: bool, indentless: bool)
      returns (ok: bool, e: Event)
      requires Expecting(states, |marks|, g) && tokens != []
      modifies this
      ensures ok ==> Valid() && Accept(old(g), InDocument(e)) == Some(g) && error == old(error)
      ensures !ok ==> error
      ensures Follows(ContentMove(old(Now()), anchor, tag, block, indentless), ok, e, Now())
    {
      hide Agree, Expecting, Accept, Popped;
      ok, e := true, DocumentEnd;
      var t := tokens[0];
      if indentless && t == BlockEntry {
        e := Enter(IndentlessEntry, anchor, tag);
      } else if t.ScalarToken? {
        e := TextContent(anchor, tag);
      } else if t == FlowSequenceStart {
        e := Enter(FlowSequenceFirst, anchor, tag);
      } else if t == FlowMappingStart {
        e := Enter(FlowMappingFirst, anchor, tag);
      } else {
        ok, e := BlockContent(anchor, tag, block);
      }
    }

    /** A scalar. */
    method TextContent(anchor: Option<string>, tag: Option<string>) returns (e: Event)
      requires Expecting(states, |marks|, g) && tokens != [] && tokens[0].ScalarToken?
      modifies this
      ensures Valid() && Accept(old(g), InDocument(e)) == Some(g) && error == old(error)
      ensures e == Scalar(anchor, tag, old(tokens)[0].text) && Now() == Popped(Rest(old(Now())))
    {
      hide Agree, Expecting, Accept, Popped;
      e := Scalar(anchor, tag, tokens[0].text);
      RestPopped(Now());
      Resume(e);
      Skip();
    }

    /** A block collection, or nothing behind an anchor or a tag. */
    method BlockContent(anchor: Option<string>, tag: Option<string>, block: bool) returns (ok: bool, e: Event)
      requires Expecting(states, |marks|, g) && tokens != []
      requires !tokens[0].ScalarToken? && tokens[0] != FlowSequenceStart && tokens[0] != FlowMappingStart
      modifies this
      ensures ok ==> Valid() && Accept(old(g), InDocument(e)) == Some(g) && error == old(error)
      ensures !ok ==> error
      ensures Follows(ContentMove(old(Now()), anchor, tag, block, false), ok, e, Now())
    {
      hide Agree, Expecting, Accept, Popped;
      ok, e := true, DocumentEnd;
      var t := tokens[0];
      if block && t == BlockSequenceStart {
        e := Enter(BlockSequenceFirst, anchor, tag);
      } else if block && t == BlockMappingStart {
        e := Enter(BlockMappingFirst, anchor, tag);
      } else if anchor.Some? || tag.Some? {
        e := Scalar(anchor, tag, "");
        Resume(e);
      } else {
        ok, error := false, true;
      }
    }

    /** An anchor and a tag in either order, each at most once. */
    method Properties() returns (ok: bool, anchor: Option<string>, tag: Option<string>)
      requires tokens != []
      modifies this`tokens, this`taken
      ensures var p := ReadProps(old(tokens));
        var r := ResolveTag(directives, p);
        tokens == old(tokens)[p.count..] && ok == r.Some? && anchor == p.anchor && (ok ==> tag == r.value)
    {
      anchor, tag, ok := None, None, true;
      var handle: Option<string> := None;
      var suffix := "";
      if tokens[0].Anchor? {
        anchor := Some(tokens[0].anchor);
        Skip();
        if tokens != [] && tokens[0].Tag? {
          handle, suffix := Some(tokens[0].handle), tokens[0].suffix;
          Skip();
        }
      } else if tokens[0].Tag? {
        handle, suffix := Some(tokens[0].handle), tokens[0].suffix;
        Skip();
        if tokens != [] && tokens[0].Anchor? {
          anchor := Some(tokens[0].anchor);
          Skip();
        }
      }
      if handle.Some? {
        if handle.value == "" {
          tag := Some(suffix);
        } else {
          var k := FindHandle(directives, handle.value);
          if k < |directives| {
            tag := Some(directives[k].prefix + suffix);
          } else {
            ok := false;
          }
        }
      }
    }

    /** An empty scalar instead of a node; the collection goes on in state `next`. */
    method Omitted(next: State) returns (e: Event)
      requires Collecting(state, states, |marks|, g) && GoesOn(state, next)
      modifies this`state, this`g
      ensures Valid() && Accept(old(g), InDocument(e)) == Some(g) && e == Scalar(None, None, "")
      ensures Now() == old(Now()).(state := next)
    {
      hide Collecting, Accept, Agree, Started, GoesOn;
      OmittedAgrees(state, next, states, |marks|, g);
      g, state := Started(g), next;
      e := Scalar(None, None, "");
    }

    /** A nested node after which the collection goes on in state `next`. */
    method Nested(next: State, block: bool, indentless: bool) returns (ok: bool, e: Event)
      requires Collecting(state, states, |marks|, g) && GoesOn(state, next)
      modifies this
      ensures ok ==> Valid() && Accept(old(g), InDocument(e)) == Some(g) && error == old(error)
      ensures !ok ==> error
      ensures Follows(Nest(old(Now()), next, block, indentless), ok, e, Now())
    {
      hide Collecting, Expecting, Accept, Agree, Started, NodeMove;
      PushAgrees(state, next, states, |marks|, g);
      MarksKept(state, next, states, |marks|, g);
      states := states + [next];
      ok, e := ParseNode(block, indentless);
    }

    /** The report of an unexpected token takes the start of the collection from `marks`. */
    method DropMark()
      requires Collecting(state, states, |marks|, g) && MarksOf(state) == 1
      modifies this`marks
      ensures old(marks) != [] && marks == old(marks)[..|old(marks)| - 1]
    {
      marks := marks[..|marks| - 1];
    }

    method BlockSequence(first: bool) returns (ok: bool, e: Event)
      requires Valid() && state == if first then BlockSequenceFirst else BlockSequenceEntry
      modifies this
      ensures ok ==> Valid() && Accept(old(g), InDocument(e)) == Some(g) && error == old(error)
      ensures !ok ==> error
      ensures Follows(BlockSequenceMove(Entered(old(Now()), first, BlockSequenceEntry)), ok, e, Now())
    {
      hide Collecting, Accept, Expecting, Nest, Popped, GoesOn;
      EntriesGoOn();
      ok, e := true, DocumentEnd;
      if first {
        Begin(BlockSequenceEntry);
      }
      if tokens != [] && tokens[0] == BlockEntry {
        Skip();
        if tokens != [] && tokens[0] != BlockEntry && tokens[0] != BlockEnd {
          ok, e := Nested(BlockSequenceEntry, true, false);
          return;
        } else if tokens != [] {
          e := Omitted(BlockSequenceEntry);
          return;
        }
      } else if tokens != [] && tokens[0] == BlockEnd {
        e := FinishHere();
        return;
      } else if tokens != [] {
        DropMark();
      }
      ok, error := false, true;
    }

    method IndentlessSequence() returns (ok: bool, e: Event)
      requires Valid() && state == IndentlessEntry
      modifies this
      ensures ok ==> Valid() && Accept(old(g), InDocument(e)) == Some(g) && error == old(error)
      ensures !ok ==> error
      ensures Follows(IndentlessMove(old(Now())), ok, e, Now())
    {
      hide Collecting, Accept, Expecting, Nest, Popped, GoesOn;
      EntriesGoOn();
      ok, e := true, DocumentEnd;
      if tokens == [] {
        ok, error := false, true;
        return;
      }
      if tokens[0] == BlockEntry {
        Skip();
        if tokens == [] {
          ok, error := false, true;
        } else if tokens[0] != BlockEntry && tokens[0] != Key && tokens[0] != Value && tokens[0] != BlockEnd {
          ok, e := Nested(IndentlessEntry, true, false);
        } else {
          e := Omitted(IndentlessEntry);
        }
      } else {
        e := Finish();
      }
    }

    method BlockMappingKeyEntry(first: bool) returns (ok: bool, e: Event)
      requires Valid() && state == if first then BlockMappingFirst else BlockMappingKey
      modifies this
      ensures ok ==> Valid() && Accept(old(g), InDocument(e)) == Some(g) && error == old(error)
      ensures !ok ==> error
      ensures Follows(BlockKeyMove(Entered(old(Now()), first, BlockMappingKey)), ok, e, Now())
    {
      hide Collecting, Accept, Expecting, Nest, Popped, GoesOn;
      BlockPairsGoOn();
      ok, e := true, DocumentEnd;
      if first {
        Begin(BlockMappingKey);
      }
      if tokens != [] && tokens[0] == Key {
        Skip();
        if tokens != [] && tokens[0] != Key && tokens[0] != Value && tokens[0] != BlockEnd {
          ok, e := Nested(BlockMappingValue, true, true);
          return;
        } else if tokens != [] {
          e := Omitted(BlockMappingValue);
          return;
        }
      } else if tokens != [] && tokens[0] == BlockEnd {
        e := FinishHere();
        return;
      } else if tokens != [] {
        DropMark();
      }
      ok, error := false, true;
    }

    method BlockMappingValueEntry() returns (ok: bool, e: Event)
      requires Valid() && state == BlockMappingValue
      modifies this
      ensures ok ==> Valid() && Accept(old(g), InDocument(e)) == Some(g) && error == old(error)
      ensures !ok ==> error
      ensures Follows(BlockValueMove(old(Now())), ok, e, Now())
    {
      hide Collecting, Accept, Expecting, Nest, Popped, GoesOn;
      BlockPairsGoOn();
      ok, e := true, DocumentEnd;
      if tokens == [] {
        ok, error := false, true;
        return;
      }
      if tokens[0] == Value {
        Skip();
        if tokens == [] {
          ok, error := false, true;
          return;
        }
        if tokens[0] != Key && tokens[0] != Value && tokens[0] != BlockEnd {
          ok, e := Nested(BlockMappingKey, true, true);
          return;
        }
      }
      e := Omitted(BlockMappingKey);
    }

    /** In a flow collection: at its end, or at the next entry behind a comma. */
    method Separator(first: bool, end: Token) returns (ok: bool)
      requires Collecting(state, states, |marks|, g) && MarksOf(state) == 1
      modifies this`tokens, this`taken, this`error, this`marks
      ensures ok ==> tokens != [] && error == old(error) && marks == old(marks)
      ensures !ok ==> error
      ensures var q := Separated(old(Now()), first, end); ok == q.Some? && (ok ==> Now() == q.value)
    {
      ok := tokens != [];
      if ok && tokens[0] != end && !first {
        ok := tokens[0] == FlowEntry;
        if ok {
          Skip();
          ok := tokens != [];
        } else {
          DropMark();
        }
      }
      if !ok {
        error := true;
      }
    }

    /** A single pair in a flow sequence starts a mapping of its own. */
    method OpenPair() returns (e: Event)
      requires Collecting(state, states, |marks|, g) && state == FlowSequenceEntry
      modifies this`g, this`state
      ensures Valid() && !First(state) && Accept(old(g), InDocument(e)) == Some(g) && e == MappingStart(None, None)
      ensures Now() == old(Now()).(state := EntryMappingKey)
    {
      OpenEntry(states, |marks|, g);
      e := MappingStart(None, None);
      g, state := Pushed(Started(g), Map(true)), EntryMappingKey;
    }

    /** An entry of a flow sequence, or its end. */
    method FlowSequenceContent() returns (ok: bool, e: Event)
      requires Collecting(state, states, |marks|, g) && state == FlowSequenceEntry && tokens != []
      modifies this
      ensures ok ==> Valid() && Accept(old(g), InDocument(e)) == Some(g) && error == old(error)
      ensures !ok ==> error
      ensures Follows(FlowItemMove(old(Now())), ok, e, Now())
    {
      hide Collecting, Accept, Agree, Nest, Popped, GoesOn;
      EntriesGoOn();
      ok := true;
      if tokens[0] == Key {
        e := OpenPair();
        Skip();
      } else if tokens[0] != FlowSequenceEnd {
        ok, e := Nested(FlowSequenceEntry, false, false);
      } else {
        e := FinishHere();
      }
    }

    method FlowSequence(first: bool) returns (ok: bool, e: Event)
      requires Valid() && state == if first then FlowSequenceFirst else FlowSequenceEntry
      modifies this
      ensures ok ==> Valid() && Accept(old(g), InDocument(e)) == Some(g) && error == old(error)
      ensures !ok ==> error
      ensures Follows(FlowSequenceMove(Entered(old(Now()), first, FlowSequenceEntry), first), ok, e, Now())
    {
      hide Collecting, Accept, Separated, FlowItemMove, FramesAll, MarksAll, Stacked;
      e := DocumentEnd;
      if first {
        Begin(FlowSequenceEntry);
      }
      ok := Separator(first, FlowSequenceEnd);
      if ok {
        ok, e := FlowSequenceContent();
      }
    }

    method EntryMappingKeyEntry() returns (ok: bool, e: Event)
      requires Valid() && state == EntryMappingKey
      modifies this
      ensures ok ==> Valid() && Accept(old(g), InDocument(e)) == Some(g) && error == old(error)
      ensures !ok ==> error
      ensures Follows(EntryKeyMove(old(Now())), ok, e, Now())
    {
      hide Collecting, Accept, Expecting, Nest, Popped, GoesOn;
      EntryPairsGoOn();
      ok, e := true, DocumentEnd;
      if tokens == [] {
        ok, error := false, true;
      } else if tokens[0] != Value && tokens[0] != FlowEntry && tokens[0] != FlowSequenceEnd {
        ok, e := Nested(EntryMappingValue, false, false);
      } else {
        Skip();
        e := Omitted(EntryMappingValue);
      }
    }

    method EntryMappingValueEntry() returns (ok: bool, e: Event)
      requires Valid() && state == EntryMappingValue
      modifies this
      ensures ok ==> Valid() && Accept(old(g), InDocument(e)) == Some(g) && error == old(error)
      ensures !ok ==> error
      ensures Follows(EntryValueMove(old(Now())), ok, e, Now())
    {
      hide Collecting, Accept, Expecting, Nest, Popped, GoesOn;
      EntryPairsGoOn();
      ok, e := true, DocumentEnd;
      if tokens == [] {
        ok, error := false, true;
        return;
      }
      if tokens[0] == Value {
        Skip();
        if tokens == [] {
          ok, error := false, true;
          return;
        }
        if tokens[0] != FlowEntry && tokens[0] != FlowSequenceEnd {
          ok, e := Nested(EntryMappingEnd, false, false);
          return;
        }
      }
      e := Omitted(EntryMappingEnd);
    }

    method EntryMappingEndEntry() returns (ok: bool, e: Event)
      requires Valid() && state == EntryMappingEnd
      modifies this
      ensures ok ==> Valid() && Accept(old(g), InDocument(e)) == Some(g) && error == old(error)
      ensures !ok ==> error
      ensures Follows(EntryEndMove(old(Now())), ok, e, Now())
    {
      ok, e := true, MappingEnd;
      if tokens == [] {
        ok, error := false, true;
        return;
      }
      hide Collecting, YamlGrammar.Closed, Inside;
      CloseEntry(states, |marks|, g);
      g, state := YamlGrammar.Closed(g), FlowSequenceEntry;
    }

    /** An entry of a flow mapping, or its end. */
    method FlowMappingContent() returns (ok: bool, e: Event)
      requires Collecting(state, states, |marks|, g) && state == FlowMappingKey && tokens != []
      modifies this
      ensures ok ==> Valid() && Accept(old(g), InDocument(e)) == Some(g) && error == old(error)
      ensures !ok ==> error
      ensures Follows(FlowPairMove(old(Now())), ok, e, Now())
    {
      hide Collecting, Accept, Agree, Nest, Popped, GoesOn;
      FlowPairsGoOn();
      ok, e := true, DocumentEnd;
      if tokens[0] == Key {
        Skip();
        if tokens == [] {
          ok, error := false, true;
        } else if tokens[0] != Value && tokens[0] != FlowEntry && tokens[0] != FlowMappingEnd {
          ok, e := Nested(FlowMappingValue, false, false);
        } else {
          e := Omitted(FlowMappingValue);
        }
      } else if tokens[0] != FlowMappingEnd {
        ok, e := Nested(FlowMappingEmptyValue, false, false);
      } else {
        e := FinishHere();
      }
    }

    method FlowMappingKeyEntry(first: bool) returns (ok: bool, e: Event)
      requires Valid() && state == if first then FlowMappingFirst else FlowMappingKey
      modifies this
      ensures ok ==> Valid() && Accept(old(g), InDocument(e)) == Some(g) && error == old(error)
      ensures !ok ==> error
      ensures Follows(FlowKeyMove(Entered(old(Now()), first, FlowMappingKey), first), ok, e, Now())
    {
      hide Collecting, Accept, Separated, FlowPairMove, FramesAll, MarksAll, Stacked;
      e := DocumentEnd;
      if first {
        Begin(FlowMappingKey);
      }
      ok := Separator(first, FlowMappingEnd);
      if ok {
        ok, e := FlowMappingContent();
      }
    }

    method FlowMappingValueEntry(empty: bool) returns (ok: bool, e: Event)
      requires Valid() && state == if empty then FlowMappingEmptyValue else FlowMappingValue
      modifies this
      ensures ok ==> Valid() && Accept(old(g), InDocument(e)) == Some(g) && error == old(error)
      ensures !ok ==> error
      ensures Follows(FlowValueMove(old(Now()), empty), ok, e, Now())
    {
      hide Collecting, Accept, Expecting, Nest, Popped, GoesOn;
      FlowPairsGoOn();
      ok, e := true, DocumentEnd;
      if tokens == [] {
        ok, error := false, true;
        return;
      }
      if !empty && tokens[0] == Value {
        Skip();
        if tokens == [] {
          ok, error := false, true;
          return;
        }
        if tokens[0] != FlowEntry && tokens[0] != FlowMappingEnd {
          ok, e := Nested(FlowMappingKey, false, false);
          return;
        }
      }
      e := Omitted(FlowMappingKey);
    }

    /** `yaml_parser_append_tag_directive`: fails on a handle that is there already. */
    method AppendDirective(d: Directive, allowDuplicates: bool) returns (ok: bool)
      modifies this`directives
      ensures var known := FindHandle(old(directives), d.handle) < |old(directives)|;
        ok == (allowDuplicates || !known) && directives == if known then old(directives) else old(directives) + [d]
    {
      var k := FindHandle(directives, d.handle);
      if k < |directives| {
        return allowDuplicates;
      }
      directives := directives + [d];
      ok := true;
    }

    /** `yaml_parser_process_directives`. */
    method ProcessDirectives() returns (ok: bool)
      modifies this`tokens, this`taken, this`directives, this`error
      ensures ok ==> tokens != [] && !tokens[0].VersionDirective? && !tokens[0].TagDirective? && error == old(error)
      ensures !ok ==> error
      ensures var d := Directives(old(Now()), false); ok == d.Some? && (ok ==> Now() == d.value)
    {
      hide Directives, FindHandle;
      var version := false;
      ok := true;
      while ok && tokens != [] && (tokens[0].VersionDirective? || tokens[0].TagDirective?)
        invariant error == old(error)
        invariant Directives(old(Now()), false) == if ok then Directives(Now(), version) else None
        decreases ok, |tokens|
      {
        DirectivesStep(Now(), version);
        if tokens[0].VersionDirective? {
          ok := !version && tokens[0].major == 1 && (tokens[0].minor == 1 || tokens[0].minor == 2);
          version := true;
        } else {
          ok := AppendDirective(Directive(tokens[0].handle, tokens[0].prefix), false);
        }
        if ok {
          Skip();
        }
      }
      if !ok || tokens == [] {
        NoTokens(Now(), version);
        ok, error := false, true;
        return;
      }
      DirectivesStep(Now(), version);
      var _ := AppendDirective(Directive("!", "!"), true);
      var _ := AppendDirective(Directive("!!", "tag:yaml.org,2002:"), true);
    }

    /** The explicit ends of documents in front of the next one. */
    method SkipDocumentEnds()
      modifies this`tokens, this`taken
      ensures tokens == SkipEnds(old(tokens))
    {
      hide SkipEnds;
      while tokens != [] && tokens[0] == DocumentEndToken
        invariant SkipEnds(tokens) == SkipEnds(old(tokens))
        decreases |tokens|
      {
        EndsSkipped(tokens);
        Skip();
      }
      EndsSkipped(tokens);
    }

    method EndStream()
      requires g == Between && tokens != []
      requires states == [] && marks == []
      modifies this`state, this`g, this`tokens, this`taken
      ensures Valid() && Accept(old(g), StreamEnd) == Some(g) && Now() == Rest(old(Now())).(state := AtEnd)
    {
      state, g := AtEnd, Over;
      Skip();
    }

    method DocumentBegin(implicit: bool) returns (ok: bool, e: StreamEvent)
      requires Valid() && state == if implicit then AtImplicitDocument else AtDocument
      modifies this
      ensures ok ==> Valid() && Accept(old(g), e) == Some(g) && error == old(error)
      ensures !ok ==> error
      ensures var m := DocumentMove(old(Now()), implicit); ok == m.Moved? && (ok ==> e == m.e && Now() == m.next)
    {
      hide Expecting, Collecting, FramesAll, MarksAll, Stacked, FramesOf, OpenMove, SkipEnds;
      ok, e := true, StreamEnd;
      if !implicit {
        SkipDocumentEnds();
      }
      if tokens == [] {
        ok, error := false, true;
        return;
      }
      var t := tokens[0];
      if t == StreamEndToken {
        EndStream();
      } else {
        ok, e := DocumentOpen(implicit && !t.VersionDirective? && !t.TagDirective? && t != DocumentStartToken);
      }
    }

    /** The directives of a document and the line that starts it, unless it is bare. */
    method DocumentOpen(bare: bool) returns (ok: bool, e: StreamEvent)
      requires states == [] && marks == [] && g == Between && tokens != []
      modifies this
      ensures ok ==> Valid() && Accept(old(g), e) == Some(g) && error == old(error)
      ensures !ok ==> error
      ensures var m := OpenMove(old(Now()), bare); ok == m.Moved? && (ok ==> e == m.e && Now() == m.next)
    {
      hide Expecting, Collecting, FramesAll, MarksAll, Stacked, FramesOf, Directives;
      e := DocumentStart;
      ok := ProcessDirectives();
      if !ok {
        return;
      }
      if !bare && tokens[0] != DocumentStartToken {
        ok, error := false, true;
        return;
      }
      assert states + [AtDocumentEnd] == [AtDocumentEnd];
      states, state, g := states + [AtDocumentEnd], if bare then BlockNode else DocumentContent, Doc([], false);
      OnlyEnd();
      if !bare {
        Skip();
      }
    }

    method DocumentBody() returns (ok: bool, e: Event)
      requires Valid() && state == DocumentContent
      modifies this
      ensures ok ==> Valid() && Accept(old(g), InDocument(e)) == Some(g) && error == old(error)
      ensures !ok ==> error
      ensures Follows(BodyMove(old(Now())), ok, e, Now())
    {
      ok, e := true, Scalar(None, None, "");
      if tokens == [] {
        ok, error := false, true;
        return;
      }
      var t := tokens[0];
      if t.VersionDirective? || t.TagDirective? || t == DocumentStartToken || t == DocumentEndToken ||
        t == StreamEndToken {
        Resume(e);
      } else {
        ok, e := ParseNode(true, false);
      }
    }

    method DocumentFinish() returns (ok: bool, e: Event)
      requires Valid() && state == AtDocumentEnd
      modifies this
      ensures ok ==> Valid() && Accept(old(g), InDocument(e)) == Some(g) && error == old(error)
      ensures !ok ==> error
      ensures Follows(FinishMove(old(Now())), ok, e, Now())
    {
      ok, e := true, DocumentEnd;
      if tokens == [] {
        ok, error := false, true;
        return;
      }
      if tokens[0] == DocumentEndToken {
        Skip();
      }
      directives := [];
      state, g := AtDocument, Between;
    }

    /** The state functions that emit an event of a document. */
    method InsideDocument() returns (ok: bool, e: Event)
      requires Valid() && state != AtStreamStart && state != AtImplicitDocument && state != AtDocument && state != AtEnd
      modifies this
      ensures ok ==> Valid() && Accept(old(g), InDocument(e)) == Some(g) && error == old(error)
      ensures !ok ==> error
      ensures Follows(InsideMove(old(Now())), ok, e, Now())
    {
      hide Accept, Collecting, Expecting, BodyMove, FinishMove, NodeMove, BlockSequenceMove, IndentlessMove,
           BlockKeyMove,
           BlockValueMove, FlowSequenceMove, EntryKeyMove, EntryValueMove, EntryEndMove, FlowKeyMove, FlowValueMove;
      match state
      case DocumentContent => ok, e := DocumentBody();
      case AtDocumentEnd => ok, e := DocumentFinish();
      case BlockNode => ok, e := ParseNode(true, false);
      case BlockNodeOrIndentless => ok, e := ParseNode(true, true);
      case FlowNode => ok, e := ParseNode(false, false);
      case BlockSequenceFirst => ok, e := BlockSequence(true);
      case BlockSequenceEntry => ok, e := BlockSequence(false);
      case IndentlessEntry => ok, e := IndentlessSequence();
      case BlockMappingFirst => ok, e := BlockMappingKeyEntry(true);
      case BlockMappingKey => ok, e := BlockMappingKeyEntry(false);
      case BlockMappingValue => ok, e := BlockMappingValueEntry();
      case FlowSequenceFirst => ok, e := FlowSequence(true);
      case FlowSequenceEntry => ok, e := FlowSequence(false);
      case EntryMappingKey => ok, e := EntryMappingKeyEntry();
      case EntryMappingValue => ok, e := EntryMappingValueEntry();
      case EntryMappingEnd => ok, e := EntryMappingEndEntry();
      case FlowMappingFirst => ok, e := FlowMappingKeyEntry(true);
      case FlowMappingKey => ok, e := FlowMappingKeyEntry(false);
      case FlowMappingValue => ok, e := FlowMappingValueEntry(false);
      case FlowMappingEmptyValue => ok, e := FlowMappingValueEntry(true);
    }

    /** `yaml_parser_parse`: the next event, if there is one. */
    method Parse() returns (ok: bool, e: Option<StreamEvent>)
      requires error || Valid()
      modifies this
      ensures error || Valid()
      ensures ok ==> if e.None? then unchanged(this) else Accept(old(g), e.value) == Some(g)
      ensures ok ==> error == old(error) && (e.None? && !error ==> g == Over && old(state) == AtEnd)
      ensures old(error) || old(state) == AtEnd ==> ok && e.None?
      ensures !old(error) && old(state) != AtEnd ==>
        var m := Next(old(Now())); ok == m.Moved? && (ok ==> e == Some(m.e) && Now() == m.next)
      ensures !ok ==> error
    {
      hide Accept, Collecting, Expecting;
      ok, e := true, None;
      if error || state == AtEnd {
        return;
      }
      if state == AtStreamStart {
        ok, e := StreamBegin();
      } else if state == AtImplicitDocument || state == AtDocument {
        var s;
        ok, s := DocumentBegin(state == AtImplicitDocument);
        e := Some(s);
      } else {
        var d;
        ok, d := InsideDocument();
        e := Some(InDocument(d));
      }
    }

    method StreamBegin() returns (ok: bool, e: Option<StreamEvent>)
      requires Valid() && state == AtStreamStart
      modifies this
      ensures ok ==> Valid() && e.Some? && Accept(old(g), e.value) == Some(g) && error == old(error)
      ensures !ok ==> error
      ensures var m := Next(old(Now())); ok == m.Moved? && (ok ==> e == Some(m.e) && Now() == m.next)
    {
      ok, e := tokens != [] && tokens[0] == StreamStartToken, Some(StreamStart);
      if !ok {
        error := true;
        return;
      }
      state, g := AtImplicitDocument, Between;
      Skip();
    }
  }

  /** All calls on any tokens: the events follow the grammar and reach its end unless the
      parser fails, and there are at most six of them for a token. */
  method ParseEvents(tokens: seq<Token>) returns (events: seq<StreamEvent>, failed: bool)
    ensures Outcome(events, failed) == Calls(Parsing(tokens, AtStreamStart, [], []))
    ensures Run(Fresh, events).Some? && (!failed ==> Run(Fresh, events) == Some(Over))
    ensures |events| <= 6 * |tokens|
  {
    hide Accept, Parser.Valid, Next, Calls, Budget, Run;
    ghost var start := Parsing(tokens, AtStreamStart, [], []);
    var p := new Parser(tokens);
    events, failed := [], false;
    EventsWithin(tokens);
    RunNone();
    NothingMore(Calls(start).events);
    while p.state != AtEnd
      invariant !failed && fresh(p) && !p.error && p.Valid() && Run(Fresh, events) == Some(p.g)
      invariant Calls(start) == Outcome(events + Calls(p.Now()).events, Calls(p.Now()).failed)
      decreases Budget(p.Now())
    {
      ghost var g := p.g;
      CallsStep(p.Now());
      NextCosts(p.Now());
      NothingMore(events);
      var ok, e := p.Parse();
      if !ok {
        failed := true;
        return;
      }
      RunOne(events, g, e.value, p.g);
      OneEarlier(events, e.value, Calls(p.Now()).events);
      events := events + [e.value];
    }
    CallsStep(p.Now());
    NothingMore(events);
    EndReached(p);
  }

  lemma {:induction false} RunNone()
    ensures Run(Fresh, []) == Some(Fresh)
  {
  }

  lemma {:induction false} RunOne(events: seq<StreamEvent>, g: Progress, e: StreamEvent, g': Progress)
    requires Run(Fresh, events) == Some(g) && Accept(g, e) == Some(g')
    ensures Run(Fresh, events + [e]) == Some(g')
  {
    hide Accept;
    RunAppend(Fresh, events, [e]);
    assert Run(g, [e]) == Some(g');
  }

  lemma {:induction false} NothingMore(events: seq<StreamEvent>)
    ensures events + [] == events == [] + events
  {
  }

  lemma {:induction false} EndReached(p: Parser)
    requires p.Valid() && p.state == AtEnd
    ensures p.g == Over
  {
  }

  lemma {:induction false} EventsWithin(tokens: seq<Token>)
    ensures |Calls(Parsing(tokens, AtStreamStart, [], [])).events| <= 6 * |tokens|
  {
    EventBound(Parsing(tokens, AtStreamStart, [], []));
  }

  lemma {:induction false} DirectivesStep(p: Parsing, version: bool)
    requires p.tokens != []
    ensures var t := p.tokens[0];
      Directives(p, version) ==
        if t.VersionDirective? then
          if version || t.major != 1 || (t.minor != 1 && t.minor != 2) then None else Directives(Rest(p), true)
        else if t.TagDirective? then
          if FindHandle(p.directives, t.handle) < |p.directives| then None
          else Directives(Rest(p).(directives := p.directives + [Directive(t.handle, t.prefix)]), version)
        else
          Some(p.(directives := YamlStates.Known(YamlStates.Known(p.directives, Directive("!", "!")),
          Directive("!!", "tag:yaml.org,2002:"))))
  {
    hide FindHandle;
  }

  lemma {:induction false} NoTokens(p: Parsing, version: bool)
    ensures p.tokens == [] ==> Directives(p, version) == None
  {
  }

  lemma {:induction false} EndsSkipped(ts: seq<Token>)
    ensures SkipEnds(ts) == if ts != [] && ts[0] == DocumentEndToken then SkipEnds(ts[1..]) else ts
  {
  }

  lemma {:induction false} RestPopped(p: Parsing)
    ensures Rest(Popped(p)) == Popped(Rest(p))
  {
  }

  lemma {:induction false} OnlyEnd()
    ensures Expecting([AtDocumentEnd], 0, Doc([], false))
  {
    assert FramesAll([AtDocumentEnd]) == [] && MarksAll([AtDocumentEnd]) == 0;
  }

  /** A single pair in a flow sequence is a mapping of its own. */
  lemma {:induction false} OpenEntry(states: seq<State>, marks: nat, g: Progress)
    requires Collecting(FlowSequenceEntry, states, marks, g)
    ensures Open(g) && Collecting(EntryMappingKey, states, marks, Pushed(Started(g), Map(true)))
  {
    hide FramesAll, MarksAll, Stacked, Started;
    OneSeq(FramesAll(states));
    TwoFrames(FramesAll(states));
  }

  lemma {:induction false} OneSeq(base: seq<Frame>)
    ensures Started(Doc(base + [Seq], true)) == Doc(base + [Seq], true)
  {
    StepFrames(base, [Seq]);
    assert [Seq][..0] + [Advance(Seq)] == [Seq];
  }

  lemma {:induction false} TwoFrames(base: seq<Frame>)
    ensures base + [Seq] + [Map(true)] == base + [Seq, Map(true)]
  {
  }

  lemma {:induction false} CloseEntry(states: seq<State>, marks: nat, g: Progress)
    requires Collecting(EntryMappingEnd, states, marks, g)
    ensures Inside(g, Map(true)) && Collecting(FlowSequenceEntry, states, marks, YamlGrammar.Closed(g))
  {
    TwoFrames(FramesAll(states));
  }
}
