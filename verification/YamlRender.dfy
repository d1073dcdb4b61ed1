/** What the event parser of parser.c is for: a document written as tokens, in any mix of
    flow and block style, comes back as the events of that document. */
module YamlRender {
  import opened Basics
  import opened YamlNodes
  import opened YamlGrammar
  import opened YamlStates

  /** A flow collection may have a comma behind its last entry. */
  datatype Style = Flow(comma: bool) | Block | Indentless

  /** How much of a pair is written: KEY and VALUE, KEY alone, VALUE alone, or a key without
      any indicator. And KEY with a token instead of the key, which the parser skips in a flow
      sequence; VALUE may follow. */
  datatype Way = Full | KeyOnly | ValueOnly | Bare | Skip(x: Token, valued: bool)

  /** A tag and how it is written: in full, without a handle, or behind a handle that a
      directive gives a prefix. */
  datatype Spelling = Spelling(tag: string, handle: string, suffix: string)

  /** Anchor and tag of a node, and which of them comes first. */
  datatype Marks = Marks(name: Option<string>, tag: Option<Spelling>, tagFirst: bool)

  function TagOf(m: Marks): Option<string> {
    if m.tag.Some? then Some(m.tag.value.tag) else None
  }

  function ListStart(m: Marks): Event {
    SequenceStart(m.name, TagOf(m))
  }

  function DictStart(m: Marks): Event {
    MappingStart(m.name, TagOf(m))
  }

  /** The first directive with the handle gives the prefix. */
  ghost predicate Means(ds: seq<Directive>, l: Spelling) {
    if l.handle == "" then l.tag == l.suffix
    else exists i :: 0 <= i < |ds| && ds[i].handle == l.handle && l.tag == ds[i].prefix + l.suffix &&
                     forall j :: 0 <= j < i ==> ds[j].handle != l.handle
  }

  ghost predicate Meant(ds: seq<Directive>, m: Marks) {
    m.tag.Some? ==> Means(ds, m.tag.value)
  }

  /** A document with the style of each collection. `Left` is a node that is left out,
      `Hollow` one that has only an anchor or a tag. A `Pair` stands in a mapping, or in a
      flow sequence without braces. */
  datatype Styled =
    | Ref(anchor: string)
    | Text(marks: Marks, text: string)
    | Hollow(marks: Marks)
    | Left
    | List(style: Style, marks: Marks, kids: seq<Styled>)
    | Dict(style: Style, marks: Marks, kids: seq<Styled>)
    | Pair(way: Way, key: Styled, val: Styled)

  /** The document without its style. */
  function Plain(t: Styled): Tree
    decreases t, 1
  {
    match t
    case Ref(a) => AliasTree(a)
    case Text(m, s) => ScalarTree(m.name, TagOf(m), s)
    case Hollow(m) => ScalarTree(m.name, TagOf(m), "")
    case Left => ScalarTree(None, None, "")
    case List(_, m, kids) => SequenceTree(m.name, TagOf(m), PlainAll(kids))
    case Dict(_, m, kids) => MappingTree(m.name, TagOf(m), PlainPairs(kids))
    case Pair(_, k, v) => MappingTree(None, None, [Plain(k), Plain(v)])
  }

  function PlainAll(ts: seq<Styled>): (r: seq<Tree>)
    ensures |r| == |ts|
    decreases ts, 0
  {
    if ts == [] then [] else [Plain(ts[0])] + PlainAll(ts[1..])
  }

  /** Keys and values in turn. */
  function PlainPairs(ts: seq<Styled>): seq<Tree>
    decreases ts, 0
  {
    if ts == [] then []
    else Halves(ts[0]) + PlainPairs(ts[1..])
  }

  function Halves(t: Styled): seq<Tree>
    decreases t, 0
  {
    if t.Pair? then [Plain(t.key), Plain(t.val)] else []
  }

  // ---------- the tokens ----------

  /** Anchor and tag in front of a node. */
  function Marked(m: Marks): seq<Token> {
    var anchor := if m.name.Some? then [Anchor(m.name.value)] else [];
    var tag := if m.tag.Some? then [Tag(m.tag.value.handle, m.tag.value.suffix)] else [];
    if m.tagFirst then tag + anchor else anchor + tag
  }

  function Tokens(t: Styled): seq<Token>
    decreases t, 1
  {
    match t
    case Ref(a) => [AliasToken(a)]
    case Text(m, s) => Marked(m) + [ScalarToken(s)]
    case Hollow(m) => Marked(m)
    case Left => []
    case List(style, m, kids) => Marked(m) +
      (match style
       case Flow(comma) => [FlowSequenceStart] + (Items(kids, true) + (Comma(!comma) + [FlowSequenceEnd]))
       case Block => [BlockSequenceStart] + (Entries(kids) + [BlockEnd])
       case Indentless => Entries(kids))
    case Dict(style, m, kids) => Marked(m) +
      (match style
       case Flow(comma) => [FlowMappingStart] + (Items(kids, true) + (Comma(!comma) + [FlowMappingEnd]))
       case Block => [BlockMappingStart] + (Pairs(kids) + [BlockEnd])
       case Indentless => [])
    case Pair(way, k, v) =>
      (match way
       case Full => [Key] + (Tokens(k) + ([Value] + Tokens(v)))
       case KeyOnly => [Key] + Tokens(k)
       case ValueOnly => [Value] + Tokens(v)
       case Bare => Tokens(k)
       case Skip(x, valued) => [Key] + ([x] + if valued then [Value] + Tokens(v) else []))
  }

  function Entries(ts: seq<Styled>): seq<Token>
    decreases ts, 0
  {
    if ts == [] then [] else [BlockEntry] + (Tokens(ts[0]) + Entries(ts[1..]))
  }

  function Pairs(ts: seq<Styled>): seq<Token>
    decreases ts, 0
  {
    if ts == [] then [] else Tokens(ts[0]) + Pairs(ts[1..])
  }

  function Comma(first: bool): seq<Token> {
    if first then [] else [FlowEntry]
  }

  /** The entries of a flow collection. */
  function Items(ts: seq<Styled>, first: bool): seq<Token>
    decreases ts, 0
  {
    if ts == [] then [] else Comma(first) + (Tokens(ts[0]) + Items(ts[1..], false))
  }

  // ---------- what may stand where ----------

  /** A node, not left out, inside a flow collection or not, and where an indentless
      sequence is allowed or not. */
  ghost predicate Fit(t: Styled, ds: seq<Directive>, flow: bool, indentless: bool)
    decreases t, 1
  {
    match t
    case Ref(_) => true
    case Text(m, _) => Meant(ds, m)
    case Hollow(m) => (m.name.Some? || m.tag.Some?) && Meant(ds, m)
    case Left => false
    case List(style, m, kids) => Meant(ds, m) &&
      (match style
       case Flow(comma) => FitItems(kids, ds) && (comma ==> kids != [])
       case Block => !flow && FitAll(kids, ds)
       case Indentless => !flow && indentless && kids != [] && FitAll(kids, ds))
    case Dict(style, m, kids) => Meant(ds, m) &&
      (match style
       case Flow(comma) => FitPairs(kids, ds, true) && (comma ==> kids != [])
       case Block => !flow && FitPairs(kids, ds, false)
       case Indentless => false)
    case Pair(_, _, _) => false
  }

  /** The entries of a block sequence, of which any may be left out. */
  ghost predicate FitAll(ts: seq<Styled>, ds: seq<Directive>)
    decreases ts, 0
  {
    ts == [] || ((ts[0] == Left || Fit(ts[0], ds, false, false)) && FitAll(ts[1..], ds))
  }

  /** The parts of a pair, each there or left out; a part that is not written is left out. */
  ghost predicate FitParts(t: Styled, ds: seq<Directive>, flow: bool)
    decreases t, 0, 0
  {
    && t.Pair? && (t.key == Left || Fit(t.key, ds, flow, !flow)) && (t.val == Left || Fit(t.val, ds, flow, !flow))
    && (t.way == KeyOnly || t.way == Bare ==> t.val == Left) && (t.way == ValueOnly ==> t.key == Left)
    && !t.way.Skip?
  }

  /** A pair of a mapping. */
  ghost predicate FitPair(t: Styled, ds: seq<Directive>, flow: bool)
    decreases t, 0, 2
  {
    t.Pair? && FitParts(t, ds, flow) && t.way != ValueOnly && (t.way == Bare ==> flow && t.key != Left)
  }

  ghost predicate FitPairs(ts: seq<Styled>, ds: seq<Directive>, flow: bool)
    decreases ts, 0
  {
    ts == [] || (FitPair(ts[0], ds, flow) && FitPairs(ts[1..], ds, flow))
  }

  /** The entries of a flow sequence: none is left out, but some may be single pairs. */
  ghost predicate FitItems(ts: seq<Styled>, ds: seq<Directive>)
    decreases ts, 0
  {
    ts == [] || ((Fit(ts[0], ds, true, false) || FitSingle(ts[0], ds)) && FitItems(ts[1..], ds))
  }

  /** A single pair; without a key it has VALUE but no value, or a token that is skipped. */
  ghost predicate FitSingle(t: Styled, ds: seq<Directive>)
    decreases t, 0, 2
  {
    t.Pair? && ((Indicated(t, ds) && (t.key != Left || (t.way == Full && t.val == Left))) || Skips(t, ds))
  }

  ghost predicate Skips(t: Styled, ds: seq<Directive>)
    decreases t, 0, 1
  {
    && t.Pair? && t.way.Skip? && NoKey(t.way.x) && t.key == Left
    && (t.val == Left || (t.way.valued && Fit(t.val, ds, true, false)))
  }

  /** A token that shows that a single pair has no key. */
  predicate NoKey(x: Token) {
    x == Value || x == FlowEntry || x == FlowSequenceEnd
  }

  /** A pair as a flow sequence may have it: with KEY. */
  ghost predicate Indicated(t: Styled, ds: seq<Directive>)
    decreases t, 0, 1
  {
    t.Pair? && FitParts(t, ds, true) && (t.way == Full || t.way == KeyOnly)
  }

  // ---------- running the parser ----------

  /** The parser delivers exactly these events from here; where it then is. */
  function Emits(p: Parsing, es: seq<Event>): Option<Parsing>
    decreases |es|, 1
  {
    if es == [] then Some(p) else After(InsideMove(p), es)
  }

  function After(m: Move, es: seq<Event>): Option<Parsing>
    decreases |es|, 0
  {
    if m.Move? && es != [] && m.e == es[0] then Emits(m.next, es[1..]) else None
  }

  lemma {:induction false} EmitsAppend(p: Parsing, a: seq<Event>, b: seq<Event>)
    ensures Emits(p, a + b) == var q := Emits(p, a); if q.None? then None else Emits(q.value, b)
    decreases |a|
  {
    hide InsideMove;
    if a == [] {
      assert a + b == b;
    } else {
      AfterAppend(InsideMove(p), a, b);
    }
  }

  lemma {:induction false} AfterAppend(m: Move, a: seq<Event>, b: seq<Event>)
    requires a != []
    ensures After(m, a + b) == var q := After(m, a); if q.None? then None else Emits(q.value, b)
    decreases |a|, 0
  {
    hide InsideMove;
    assert (a + b)[1..] == a[1..] + b && (a + b)[0] == a[0];
    if m.Move? && m.e == a[0] {
      EmitsAppend(m.next, a[1..], b);
    }
  }

  /** A node first and then the rest of the collection that it stands in. */
  lemma {:induction false} NodeThen(m: Move, a: seq<Event>, b: seq<Event>, q: Parsing, r: Option<Parsing>)
    requires a != [] && b != [] && After(m, a) == Some(q) && After(InsideMove(q), b) == r
    ensures After(m, a + b) == r
  {
    hide InsideMove;
    AfterAppend(m, a, b);
  }

  // ---------- one node ----------

  lemma {:induction false} EventsSome(t: Tree)
    ensures Events(t) != []
  {
  }

  /** A token that a node can start with. */
  predicate Starts(x: Token) {
    x !in {BlockEnd, Key, Value, FlowEntry, FlowSequenceEnd, FlowMappingEnd} && !EndsDocument(x)
  }

  /** The first token of a node; a sequence without indentation starts with its first entry. */
  lemma {:induction false} Opening(t: Styled, ds: seq<Directive>, flow: bool, indentless: bool)
    requires Fit(t, ds, flow, indentless)
    ensures Tokens(t) != [] && Starts(Tokens(t)[0])
    ensures Tokens(t)[0] == BlockEntry ==> t.List? && t.style == Indentless
    ensures t.List? && t.style == Indentless ==> indentless && !flow
  {
    hide Items, Pairs, FitAll, FitItems, FitPairs;
  }

  /** Behind anchor and tag the content decides. */
  lemma {:induction false} NodeStart(p: Parsing, m: Marks, c: Token, rest: seq<Token>,
                                     block: bool, indentless: bool)
    requires p.tokens == Marked(m) + ([c] + rest) && !c.Anchor? && !c.Tag? && !c.AliasToken? && Meant(p.directives, m)
    ensures NodeMove(p, block, indentless) == ContentMove(p.(tokens := [c] + rest), m.name, TagOf(m), block, indentless)
  {
    hide ContentMove, Marked, ResolveTag, Means;
    MarksRead(m, c, rest);
    var k := |Marked(m)|;
    assert p.tokens[k..] == [c] + rest;
    Resolves(p.directives, ReadProps(p.tokens), m);
  }

  lemma {:induction false} MarksRead(m: Marks, c: Token, rest: seq<Token>)
    requires !c.Anchor? && !c.Tag? && !c.AliasToken?
    ensures var props, ts := ReadProps(Marked(m) + ([c] + rest)), Marked(m) + ([c] + rest);
      && props.anchor == m.name && props.count == |Marked(m)| && !ts[0].AliasToken?
      && (if m.tag.None? then props.handle == None
          else props.handle == Some(m.tag.value.handle) && props.suffix == m.tag.value.suffix)
  {
    var k, ts := |Marked(m)|, Marked(m) + ([c] + rest);
    assert ts[k] == c && forall i :: 0 <= i < k ==> ts[i] == Marked(m)[i];
  }

  lemma {:induction false} Resolves(ds: seq<Directive>, props: Props, m: Marks)
    requires Meant(ds, m)
    requires if m.tag.None? then props.handle == None
             else props.handle == Some(m.tag.value.handle) && props.suffix == m.tag.value.suffix
    ensures ResolveTag(ds, props) == Some(TagOf(m))
  {
    if m.tag.Some? && m.tag.value.handle != "" {
      var l := m.tag.value;
      var i :| 0 <= i < |ds| && ds[i].handle == l.handle && l.tag == ds[i].prefix + l.suffix &&
               forall j :: 0 <= j < i ==> ds[j].handle != l.handle;
      var k := FindHandle(ds, l.handle);
      assert k == i;
    }
  }

  /** What comes behind the key or the value of a block mapping. */
  predicate Closing(rest: seq<Token>) {
    rest != [] && rest[0] in {Key, Value, BlockEnd}
  }

  /** What comes behind a node: not the start of another one. */
  predicate Over(rest: seq<Token>, indentless: bool) {
    rest != [] && (!Starts(rest[0]) || (rest[0] == BlockEntry && !indentless))
  }

  /** A node comes back as its events, and the state on top of the stack resumes behind it. */
  lemma {:induction false} NodeRun(p: Parsing, t: Styled, rest: seq<Token>, block: bool, indentless: bool)
    requires Fit(t, p.directives, !block, indentless) && p.tokens == Tokens(t) + rest && p.states != []
    requires Over(rest, indentless) && (t.List? && t.style == Indentless ==> Closing(rest))
    ensures After(NodeMove(p, block, indentless), Events(Plain(t))) == Some(Popped(p.(tokens := rest)))
    decreases t, 1
  {
    hide NodeMove, After, Over, FitAll, FitItems, FitPairs;
    match t
    case Ref(a) =>
      RefRun(p, a, rest, block, indentless);
    case Text(m, s) =>
      TextRun(p, m, s, rest, block, indentless);
    case Hollow(m) =>
      HollowRun(p, m, rest, block, indentless);
    case List(_, _, _) =>
      ListRun(p, t, rest, block, indentless);
    case Dict(_, _, _) =>
      DictRun(p, t, rest, block, indentless);
  }

  lemma {:induction false} RefRun(p: Parsing, a: string, rest: seq<Token>, block: bool, indentless: bool)
    requires p.tokens == [AliasToken(a)] + rest
    ensures After(NodeMove(p, block, indentless), [Alias(a)]) == Some(Popped(p.(tokens := rest)))
  {
    assert p.tokens[1..] == rest;
  }

  lemma {:induction false} TextRun(p: Parsing, m: Marks, s: string, rest: seq<Token>,
                                   block: bool, indentless: bool)
    requires Meant(p.directives, m)
    requires p.tokens == Marked(m) + [ScalarToken(s)] + rest
    ensures After(NodeMove(p, block, indentless), [Scalar(m.name, TagOf(m), s)]) == Some(Popped(p.(tokens := rest)))
  {
    hide NodeMove, Marked;
    assert Marked(m) + [ScalarToken(s)] + rest == Marked(m) + ([ScalarToken(s)] + rest);
    NodeStart(p, m, ScalarToken(s), rest, block, indentless);
    assert ([ScalarToken(s)] + rest)[1..] == rest;
  }

  lemma {:induction false} HollowRun(p: Parsing, m: Marks, rest: seq<Token>, block: bool,
                                     indentless: bool)
    requires p.tokens == Marked(m) + rest && Over(rest, indentless) && (m.name.Some? || m.tag.Some?)
    requires Meant(p.directives, m)
    ensures After(NodeMove(p, block, indentless), [Scalar(m.name, TagOf(m), "")]) == Some(Popped(p.(tokens := rest)))
  {
    hide NodeMove, Marked, After;
    assert rest == [rest[0]] + rest[1..];
    NodeStart(p, m, rest[0], rest[1..], block, indentless);
    MoveOnly(Scalar(m.name, TagOf(m), ""), Popped(p.(tokens := rest)));
  }

  /** A collection: its start, and then what its first state makes of the rest. */
  lemma {:induction false} Collection(p: Parsing, m: Marks, c: Token, first: State,
                                      e: Event, inner: seq<Event>, body: seq<Token>, block: bool, indentless: bool,
                                      r: Option<Parsing>)
    requires Meant(p.directives, m)
    requires p.tokens == Marked(m) + ([c] + body) && !c.Anchor? && !c.Tag? && !c.AliasToken? && inner != []
    requires var q := p.(tokens := [c] + body);
      && ContentMove(q, m.name, TagOf(m), block, indentless) == Move(e, q.(state := first))
      && After(InsideMove(q.(state := first)), inner) == r
    ensures After(NodeMove(p, block, indentless), [e] + inner) == r
  {
    hide NodeMove, Marked, ContentMove, InsideMove;
    NodeStart(p, m, c, body, block, indentless);
    assert ([e] + inner)[1..] == inner;
  }

  lemma {:induction false} ListRun(p: Parsing, t: Styled, rest: seq<Token>, block: bool, indentless: bool)
    requires t.List? && Fit(t, p.directives, !block, indentless) && p.tokens == Tokens(t) + rest && p.states != []
    requires t.style == Indentless ==> Closing(rest)
    ensures After(NodeMove(p, block, indentless), Events(Plain(t))) == Some(Popped(p.(tokens := rest)))
    decreases t, 0
  {
    hide NodeMove, Marked, Items, Entries, After, Emits, EventsAll, FitAll, FitItems, Comma;
    ListEvents(t);
    match t.style
    case Flow(comma) =>
      FlowList(p, comma, t.marks, t.kids, rest, block, indentless);
    case Block =>
      BlockList(p, t.marks, t.kids, rest, indentless);
    case Indentless =>
      IndentlessList(p, t.marks, t.kids, rest);
  }

  lemma {:induction false} ListEvents(t: Styled)
    requires t.List?
    ensures Events(Plain(t)) == [ListStart(t.marks)] + (EventsAll(PlainAll(t.kids)) + [SequenceEnd])
  {
    hide EventsAll, PlainAll;
    var e, inner := ListStart(t.marks), EventsAll(PlainAll(t.kids));
    assert [e] + inner + [SequenceEnd] == [e] + (inner + [SequenceEnd]);
  }

  lemma {:induction false} FlowList(p: Parsing, comma: bool, m: Marks, kids: seq<Styled>,
                                    rest: seq<Token>, block: bool, indentless: bool)
    requires Meant(p.directives, m)
    requires FitItems(kids, p.directives) && (comma ==> kids != []) && p.states != []
    requires p.tokens == Marked(m) + ([FlowSequenceStart] +
      (Items(kids, true) + (Comma(!comma) + [FlowSequenceEnd]))) + rest
    ensures After(NodeMove(p, block, indentless), [ListStart(m)] +
      (EventsAll(PlainAll(kids)) + [SequenceEnd])) ==
            Some(Popped(p.(tokens := rest)))
    decreases kids, 4
  {
    hide NodeMove, Marked, Items, After, EventsAll, FitItems, PlainAll, Comma, InsideMove, FlowSequenceMove;
    var end := Comma(!comma) + [FlowSequenceEnd];
    var body := Items(kids, true) + end + rest;
    Regroup(Marked(m), FlowSequenceStart, Items(kids, true) + end, rest);
    FlowListOpens(p, body);
    ItemsRun(p.(tokens := body, state := FlowSequenceEntry), kids, true, comma, rest);
    Collection(p, m, FlowSequenceStart, FlowSequenceFirst, ListStart(m), EventsAll(PlainAll(kids)) +
    [SequenceEnd], body, block, indentless, Some(Popped(p.(tokens := rest))));
  }

  lemma {:induction false} BlockList(p: Parsing, m: Marks, kids: seq<Styled>,
                                     rest: seq<Token>, indentless: bool)
    requires Meant(p.directives, m)
    requires FitAll(kids, p.directives) && p.states != []
    requires p.tokens == Marked(m) + ([BlockSequenceStart] + (Entries(kids) + [BlockEnd])) + rest
    ensures After(NodeMove(p, true, indentless), [ListStart(m)] + (EventsAll(PlainAll(kids)) + [SequenceEnd])) ==
            Some(Popped(p.(tokens := rest)))
    decreases kids, 4
  {
    hide NodeMove, Marked, Entries, After, EventsAll, FitAll, PlainAll, InsideMove, BlockSequenceMove;
    var body := Entries(kids) + [BlockEnd] + rest;
    Regroup(Marked(m), BlockSequenceStart, Entries(kids) + [BlockEnd], rest);
    BlockListOpens(p, body);
    EntriesRun(p.(tokens := body, state := BlockSequenceEntry), kids, rest);
    Collection(p, m, BlockSequenceStart, BlockSequenceFirst, ListStart(m),
               EventsAll(PlainAll(kids)) + [SequenceEnd], body, true, indentless, Some(Popped(p.(tokens := rest))));
  }

  lemma {:induction false} IndentlessList(p: Parsing, m: Marks, kids: seq<Styled>,
                                          rest: seq<Token>)
    requires Meant(p.directives, m)
    requires FitAll(kids, p.directives) && kids != [] && p.states != [] && Closing(rest)
    requires p.tokens == Marked(m) + Entries(kids) + rest
    ensures After(NodeMove(p, true, true), [ListStart(m)] + (EventsAll(PlainAll(kids)) + [SequenceEnd])) ==
            Some(Popped(p.(tokens := rest)))
    decreases kids, 4
  {
    hide NodeMove, Marked, Entries, After, EventsAll, FitAll, PlainAll, Tokens, InsideMove, IndentlessMove;
    var body := Tokens(kids[0]) + Entries(kids[1..]) + rest;
    FirstEntry(kids, rest);
    Grouped2(Marked(m), Entries(kids), rest);
    IndentlessOpens(p.(tokens := Entries(kids) + rest, state := IndentlessEntry));
    IndentlessRun(p.(tokens := Entries(kids) + rest, state := IndentlessEntry), kids, rest);
    Collection(p, m, BlockEntry, IndentlessEntry, ListStart(m), EventsAll(PlainAll(kids)) + [SequenceEnd],
    body, true, true, Some(Popped(p.(tokens := rest))));
  }

  /** The first state of a collection skips the token that starts it. */
  lemma {:induction false} FlowListOpens(p: Parsing, body: seq<Token>)
    ensures InsideMove(p.(tokens := [FlowSequenceStart] + body, state := FlowSequenceFirst)) ==
            FlowSequenceMove(p.(tokens := body, state := FlowSequenceEntry), true)
  {
    hide FlowSequenceMove;
    assert ([FlowSequenceStart] + body)[1..] == body;
  }

  lemma {:induction false} FlowDictOpens(p: Parsing, body: seq<Token>)
    ensures InsideMove(p.(tokens := [FlowMappingStart] + body, state := FlowMappingFirst)) ==
            FlowKeyMove(p.(tokens := body, state := FlowMappingKey), true)
  {
    hide FlowKeyMove;
    assert ([FlowMappingStart] + body)[1..] == body;
  }

  lemma {:induction false} BlockListOpens(p: Parsing, body: seq<Token>)
    ensures InsideMove(p.(tokens := [BlockSequenceStart] + body, state := BlockSequenceFirst)) ==
            BlockSequenceMove(p.(tokens := body, state := BlockSequenceEntry))
  {
    hide BlockSequenceMove;
    assert ([BlockSequenceStart] + body)[1..] == body;
  }

  lemma {:induction false} BlockDictOpens(p: Parsing, body: seq<Token>)
    ensures InsideMove(p.(tokens := [BlockMappingStart] + body, state := BlockMappingFirst)) ==
            BlockKeyMove(p.(tokens := body, state := BlockMappingKey))
  {
    hide BlockKeyMove;
    assert ([BlockMappingStart] + body)[1..] == body;
  }

  lemma {:induction false} IndentlessOpens(p: Parsing)
    requires p.state == IndentlessEntry
    ensures InsideMove(p) == IndentlessMove(p)
  {
    hide IndentlessMove;
  }

  lemma {:induction false} Regroup(a: seq<Token>, x: Token, b: seq<Token>, rest: seq<Token>)
    ensures a + ([x] + b) + rest == a + ([x] + (b + rest))
  {
  }

  lemma {:induction false} FirstEntry(ts: seq<Styled>, rest: seq<Token>)
    requires ts != []
    ensures Entries(ts) + rest == [BlockEntry] + (Tokens(ts[0]) + Entries(ts[1..]) + rest)
  {
    hide Tokens;
    var a, b := Tokens(ts[0]), Entries(ts[1..]);
    assert [BlockEntry] + (a + b) + rest == [BlockEntry] + (a + b + rest);
  }

  lemma {:induction false} DictRun(p: Parsing, t: Styled, rest: seq<Token>, block: bool, indentless: bool)
    requires t.Dict? && Fit(t, p.directives, !block, indentless) && p.tokens == Tokens(t) + rest && p.states != []
    ensures After(NodeMove(p, block, indentless), Events(Plain(t))) == Some(Popped(p.(tokens := rest)))
    decreases t, 0
  {
    hide NodeMove, Marked, Items, Pairs, After, Emits, EventsAll, FitPairs, Comma;
    DictEvents(t);
    match t.style
    case Flow(comma) =>
      FlowDict(p, comma, t.marks, t.kids, rest, block, indentless);
    case Block =>
      BlockDict(p, t.marks, t.kids, rest, indentless);
  }

  lemma {:induction false} DictEvents(t: Styled)
    requires t.Dict?
    ensures Events(Plain(t)) == [DictStart(t.marks)] + (EventsAll(PlainPairs(t.kids)) + [MappingEnd])
  {
    hide EventsAll, PlainPairs;
    var e, inner := DictStart(t.marks), EventsAll(PlainPairs(t.kids));
    assert [e] + inner + [MappingEnd] == [e] + (inner + [MappingEnd]);
  }

  lemma {:induction false} FlowDict(p: Parsing, comma: bool, m: Marks, kids: seq<Styled>,
                                    rest: seq<Token>, block: bool, indentless: bool)
    requires Meant(p.directives, m)
    requires FitPairs(kids, p.directives, true) && (comma ==> kids != []) && p.states != []
    requires p.tokens == Marked(m) + ([FlowMappingStart] +
      (Items(kids, true) + (Comma(!comma) + [FlowMappingEnd]))) + rest
    ensures After(NodeMove(p, block, indentless), [DictStart(m)] +
      (EventsAll(PlainPairs(kids)) + [MappingEnd])) ==
            Some(Popped(p.(tokens := rest)))
    decreases kids, 4
  {
    hide NodeMove, Marked, Items, After, EventsAll, FitPairs, PlainPairs, Comma, InsideMove, FlowKeyMove;
    var end := Comma(!comma) + [FlowMappingEnd];
    var body := Items(kids, true) + end + rest;
    Regroup(Marked(m), FlowMappingStart, Items(kids, true) + end, rest);
    FlowDictOpens(p, body);
    FlowPairsRun(p.(tokens := body, state := FlowMappingKey), kids, true, comma, rest);
    Collection(p, m, FlowMappingStart, FlowMappingFirst, DictStart(m), EventsAll(PlainPairs(kids)) +
    [MappingEnd], body, block, indentless, Some(Popped(p.(tokens := rest))));
  }

  lemma {:induction false} BlockDict(p: Parsing, m: Marks, kids: seq<Styled>,
                                     rest: seq<Token>, indentless: bool)
    requires Meant(p.directives, m)
    requires FitPairs(kids, p.directives, false) && p.states != []
    requires p.tokens == Marked(m) + ([BlockMappingStart] + (Pairs(kids) + [BlockEnd])) + rest
    ensures After(NodeMove(p, true, indentless), [DictStart(m)] + (EventsAll(PlainPairs(kids)) + [MappingEnd])) ==
            Some(Popped(p.(tokens := rest)))
    decreases kids, 4
  {
    hide NodeMove, Marked, Pairs, After, EventsAll, FitPairs, PlainPairs, InsideMove, BlockKeyMove;
    var body := Pairs(kids) + [BlockEnd] + rest;
    Regroup(Marked(m), BlockMappingStart, Pairs(kids) + [BlockEnd], rest);
    BlockDictOpens(p, body);
    PairsRun(p.(tokens := body, state := BlockMappingKey), kids, rest);
    Collection(p, m, BlockMappingStart, BlockMappingFirst, DictStart(m), EventsAll(PlainPairs(kids)) +
    [MappingEnd], body, true, indentless, Some(Popped(p.(tokens := rest))));
  }

  // ---------- the entries of a collection ----------

  /** A child of a collection, or the empty scalar that stands for it; then state `next`. */
  function Child(p: Parsing, t: Styled, next: State, block: bool, indentless: bool): Move {
    if t == Left then Omit(p, next) else Nest(p, next, block, indentless)
  }

  lemma {:induction false} ChildRun(p: Parsing, t: Styled, next: State, tail: seq<Token>, block: bool, indentless: bool)
    requires t == Left || (Fit(t, p.directives, !block, indentless) && Over(tail, indentless))
    requires p.tokens == Tokens(t) + tail && (t.List? && t.style == Indentless ==> Closing(tail))
    ensures After(Child(p, t, next, block, indentless), Events(Plain(t))) == Some(p.(state := next, tokens := tail))
    decreases t, 2
  {
    if t == Left {
      LeftRun(p, next, tail);
    } else {
      hide NodeMove, After, Emits, Events;
      var q := p.(states := p.states + [next]);
      NodeRun(q, t, tail, block, indentless);
      Returned(p, next, tail);
    }
  }

  lemma {:induction false} LeftRun(p: Parsing, next: State, tail: seq<Token>)
    requires p.tokens == Tokens(Left) + tail
    ensures After(Omit(p, next), Events(Plain(Left))) == Some(p.(state := next, tokens := tail))
  {
    assert p.tokens == tail;
  }

  lemma {:induction false} Returned(p: Parsing, next: State, tail: seq<Token>)
    ensures Popped(p.(states := p.states + [next], tokens := tail)) == p.(state := next, tokens := tail)
  {
    assert (p.states + [next])[..|p.states|] == p.states;
  }

  /** The events of a collection with one child more. */
  lemma {:induction false} OneChild(ts: seq<Styled>, end: Event)
    requires ts != []
    ensures EventsAll(PlainAll(ts)) + [end] == Events(Plain(ts[0])) + (EventsAll(PlainAll(ts[1..])) + [end])
  {
    hide Events, Plain;
    var a, b := Events(Plain(ts[0])), EventsAll(PlainAll(ts[1..]));
    var r := PlainAll(ts);
    assert r[0] == Plain(ts[0]) && r[1..] == PlainAll(ts[1..]);
    assert a + b + [end] == a + (b + [end]);
  }

  /** The events of a mapping with one pair more. */
  lemma {:induction false} OnePair(ts: seq<Styled>, end: Event)
    requires ts != [] && ts[0].Pair?
    ensures EventsAll(PlainPairs(ts)) + [end] ==
            Events(Plain(ts[0].key)) + (Events(Plain(ts[0].val)) + (EventsAll(PlainPairs(ts[1..])) + [end]))
  {
    hide Events, Plain, EventsAll;
    var k, v := Plain(ts[0].key), Plain(ts[0].val);
    var r := PlainPairs(ts[1..]);
    EventsPair(k, v, r);
    Grouped4(Events(k), Events(v), EventsAll(r), [end]);
  }

  lemma {:induction false} EventsPair(k: Tree, v: Tree, r: seq<Tree>)
    ensures EventsAll([k, v] + r) == Events(k) + (Events(v) + EventsAll(r))
  {
    hide Events;
    var all := [k, v] + r;
    assert all[0] == k && all[1..] == [v] + r && ([v] + r)[1..] == r;
    assert EventsAll(all) == Events(k) + EventsAll([v] + r);
  }

  lemma {:induction false} Grouped4(a: seq<Event>, b: seq<Event>, c: seq<Event>, d: seq<Event>)
    ensures a + (b + c) + d == a + (b + (c + d))
  {
  }

  lemma {:induction false} EntriesRun(q: Parsing, ts: seq<Styled>, rest: seq<Token>)
    requires FitAll(ts, q.directives) && q.tokens == Entries(ts) + [BlockEnd] + rest
    requires q.state == BlockSequenceEntry && q.states != []
    ensures After(BlockSequenceMove(q), EventsAll(PlainAll(ts)) + [SequenceEnd]) == Some(Popped(q.(tokens := rest)))
    decreases ts, 0
  {
    hide BlockSequenceMove, After, Emits, EventsAll, Entries, Tokens, Events, Plain, PlainAll, Fit, FitAll, Over;
    if ts == [] {
      EntriesEnd(q, rest);
    } else {
      var tail := Entries(ts[1..]) + [BlockEnd] + rest;
      EntriesFirst(q, ts, rest, tail);
      var q1, q2 := Rest(q), q.(tokens := tail);
      ChildRun(q1, ts[0], BlockSequenceEntry, tail, true, false);
      EntriesRun(q2, ts[1..], rest);
      OneChild(ts, SequenceEnd);
      EventsSome(Plain(ts[0]));
      NodeThen(BlockSequenceMove(q), Events(Plain(ts[0])), EventsAll(PlainAll(ts[1..])) + [SequenceEnd], q2,
               Some(Popped(q.(tokens := rest))));
    }
  }

  lemma {:induction false} EndAlone(end: Event)
    ensures EventsAll(PlainAll([])) + [end] == [end]
  {
  }

  lemma {:induction false} MoveOnly(e: Event, q: Parsing)
    ensures After(Move(e, q), [e]) == Some(q)
  {
    hide InsideMove;
  }

  lemma {:induction false} EntriesEnd(q: Parsing, rest: seq<Token>)
    requires q.tokens == Entries([]) + [BlockEnd] + rest
    ensures After(BlockSequenceMove(q), EventsAll(PlainAll([])) + [SequenceEnd]) == Some(Popped(q.(tokens := rest)))
  {
    hide After, EventsAll, PlainAll, Nest;
    assert q.tokens[0] == BlockEnd && q.tokens[1..] == rest;
    EndAlone(SequenceEnd);
    MoveOnly(SequenceEnd, Popped(q.(tokens := rest)));
  }

  lemma {:induction false} EntriesFirst(q: Parsing, ts: seq<Styled>, rest: seq<Token>, tail: seq<Token>)
    requires ts != [] && FitAll(ts, q.directives) && q.tokens == Entries(ts) + [BlockEnd] + rest
    requires tail == Entries(ts[1..]) + [BlockEnd] + rest
    ensures Rest(q) == q.(tokens := Tokens(ts[0]) + tail)
    ensures BlockSequenceMove(q) == Child(Rest(q), ts[0], BlockSequenceEntry, true, false)
    ensures FitAll(ts[1..], q.directives) && (ts[0] == Left || Fit(ts[0], q.directives, false, false))
    ensures !(ts[0].List? && ts[0].style == Indentless) && Over(tail, false)
  {
    hide Tokens, Nest;
    assert q.tokens == [BlockEntry] + (Tokens(ts[0]) + tail);
    assert tail[0] == BlockEntry || tail[0] == BlockEnd;
    LeftNothing();
    if ts[0] != Left {
      Opening(ts[0], q.directives, false, false);
    }
  }

  lemma {:induction false} LeftNothing()
    ensures Tokens(Left) == []
  {
  }

  lemma {:induction false} IndentlessRun(q: Parsing, ts: seq<Styled>, rest: seq<Token>)
    requires FitAll(ts, q.directives) && q.tokens == Entries(ts) + rest && Closing(rest)
    requires q.state == IndentlessEntry && q.states != []
    ensures After(IndentlessMove(q), EventsAll(PlainAll(ts)) + [SequenceEnd]) == Some(Popped(q.(tokens := rest)))
    decreases ts, 0
  {
    hide IndentlessMove, After, Emits, EventsAll, Entries, Tokens, Events, Plain, PlainAll, Fit, FitAll, Over;
    if ts == [] {
      IndentlessEnd(q, rest);
    } else {
      var tail := Entries(ts[1..]) + rest;
      IndentlessFirst(q, ts, rest, tail);
      var q1, q2 := Rest(q), q.(tokens := tail);
      ChildRun(q1, ts[0], IndentlessEntry, tail, true, false);
      IndentlessRun(q2, ts[1..], rest);
      OneChild(ts, SequenceEnd);
      EventsSome(Plain(ts[0]));
      NodeThen(IndentlessMove(q), Events(Plain(ts[0])), EventsAll(PlainAll(ts[1..])) + [SequenceEnd], q2,
               Some(Popped(q.(tokens := rest))));
    }
  }

  lemma {:induction false} IndentlessEnd(q: Parsing, rest: seq<Token>)
    requires q.tokens == Entries([]) + rest && Closing(rest)
    ensures After(IndentlessMove(q), EventsAll(PlainAll([])) + [SequenceEnd]) == Some(Popped(q.(tokens := rest)))
  {
    hide After, EventsAll, PlainAll, Nest;
    assert q.tokens == rest;
    EndAlone(SequenceEnd);
    MoveOnly(SequenceEnd, Popped(q.(tokens := rest)));
  }

  lemma {:induction false} IndentlessFirst(q: Parsing, ts: seq<Styled>, rest: seq<Token>, tail: seq<Token>)
    requires ts != [] && FitAll(ts, q.directives) && q.tokens == Entries(ts) + rest && Closing(rest)
    requires tail == Entries(ts[1..]) + rest
    ensures Rest(q) == q.(tokens := Tokens(ts[0]) + tail)
    ensures IndentlessMove(q) == Child(Rest(q), ts[0], IndentlessEntry, true, false)
    ensures FitAll(ts[1..], q.directives) && (ts[0] == Left || Fit(ts[0], q.directives, false, false))
    ensures !(ts[0].List? && ts[0].style == Indentless) && Over(tail, false)
  {
    hide Tokens, Nest, Fit, Entries;
    FirstEntry(ts, rest);
    Grouped2(Tokens(ts[0]), Entries(ts[1..]), rest);
    EntriesNext(ts[1..], rest);
    assert q.tokens[1..] == Tokens(ts[0]) + tail;
    LeftNothing();
    if ts[0] != Left {
      Opening(ts[0], q.directives, false, false);
    }
  }

  lemma {:induction false} Grouped2(a: seq<Token>, b: seq<Token>, c: seq<Token>)
    ensures a + b + c == a + (b + c)
  {
  }

  lemma {:induction false} EntriesNext(ts: seq<Styled>, rest: seq<Token>)
    requires rest != []
    ensures var tail := Entries(ts) + rest; tail[0] == BlockEntry || tail[0] == rest[0]
  {
    hide Tokens;
  }

  /** A key and a value, each in the state that the other leaves. */
  lemma {:induction false} KeyThenValue(m: Move, k: Tree, v: Tree, inner: seq<Event>, p: Parsing, q: Parsing,
                                        r: Option<Parsing>)
    requires After(m, Events(k)) == Some(p) && After(InsideMove(p), Events(v)) == Some(q) && inner != []
    requires After(InsideMove(q), inner) == r
    ensures After(m, Events(k) + (Events(v) + inner)) == r
  {
    hide InsideMove, After, Events;
    EventsSome(k);
    EventsSome(v);
    NodeThen(InsideMove(p), Events(v), inner, q, r);
    NodeThen(m, Events(k), Events(v) + inner, p, r);
  }

  // ---------- mappings ----------

  /** What is left of a pair behind its key. */
  function Mid(t: Styled, tail: seq<Token>): seq<Token>
    requires t.Pair?
  {
    if t.way == Full then [Value] + (Tokens(t.val) + tail) else tail
  }

  lemma {:induction false} PairTokens(t: Styled, tail: seq<Token>)
    requires t.Pair? && t.way != ValueOnly && !t.way.Skip?
    ensures Tokens(t) + tail == (if t.way == Bare then [] else [Key]) + (Tokens(t.key) + Mid(t, tail))
  {
    var a, b := Tokens(t.key), Tokens(t.val);
    hide Tokens;
    Grouped3(a, b, tail);
  }

  lemma {:induction false} Grouped3(a: seq<Token>, b: seq<Token>, tail: seq<Token>)
    ensures [Key] + (a + ([Value] + b)) + tail == [Key] + (a + ([Value] + (b + tail)))
    ensures [Key] + a + tail == [Key] + (a + tail) && [] + (a + tail) == a + tail
  {
  }

  /** What a mapping goes on with behind a pair. */
  predicate PairOver(tail: seq<Token>, flow: bool) {
    tail != [] && if flow then tail[0] in {FlowEntry, FlowMappingEnd} else tail[0] in {Key, BlockEnd}
  }

  lemma {:induction false} PairsRun(q: Parsing, ts: seq<Styled>, rest: seq<Token>)
    requires FitPairs(ts, q.directives, false) && q.tokens == Pairs(ts) + [BlockEnd] + rest
    requires q.state == BlockMappingKey && q.states != []
    ensures After(BlockKeyMove(q), EventsAll(PlainPairs(ts)) + [MappingEnd]) == Some(Popped(q.(tokens := rest)))
    decreases ts, 0
  {
    hide BlockKeyMove, BlockValueMove, After, Emits, EventsAll, Pairs, Tokens, Events, Plain, PlainPairs, Fit, FitPairs,
         FitPair, PairOver, Mid;
    if ts == [] {
      PairsEnd(q, rest);
    } else {
      var t := ts[0];
      var tail := Pairs(ts[1..]) + [BlockEnd] + rest;
      PairsFirst(ts, q.directives, rest);
      BlockPair(q, t, tail);
      PairsRun(q.(tokens := tail), ts[1..], rest);
      OnePair(ts, MappingEnd);
      KeyThenValue(BlockKeyMove(q), Plain(t.key), Plain(t.val), EventsAll(PlainPairs(ts[1..])) + [MappingEnd],
                   q.(state := BlockMappingValue, tokens := Mid(t, tail)), q.(tokens := tail),
                   Some(Popped(q.(tokens := rest))));
    }
  }

  lemma {:induction false} PairsEnd(q: Parsing, rest: seq<Token>)
    requires q.tokens == Pairs([]) + [BlockEnd] + rest
    ensures After(BlockKeyMove(q), EventsAll(PlainPairs([])) + [MappingEnd]) == Some(Popped(q.(tokens := rest)))
  {
    hide After, EventsAll, Nest;
    assert q.tokens[0] == BlockEnd && q.tokens[1..] == rest;
    EndAlone(MappingEnd);
    MoveOnly(MappingEnd, Popped(q.(tokens := rest)));
  }

  lemma {:induction false} PairsFirst(ts: seq<Styled>, ds: seq<Directive>, rest: seq<Token>)
    requires ts != [] && FitPairs(ts, ds, false)
    ensures var tail := Pairs(ts[1..]) + [BlockEnd] + rest;
      Pairs(ts) + [BlockEnd] + rest == Tokens(ts[0]) + tail && PairOver(tail, false)
    ensures FitPair(ts[0], ds, false) && FitPairs(ts[1..], ds, false) && ts[0].Pair?
  {
    hide Tokens, FitParts;
    Grouped(Tokens(ts[0]), Pairs(ts[1..]), [BlockEnd], rest);
    PairsNext(ts[1..], ds, rest);
  }

  lemma {:induction false} PairsNext(ts: seq<Styled>, ds: seq<Directive>, rest: seq<Token>)
    requires FitPairs(ts, ds, false)
    ensures PairOver(Pairs(ts) + [BlockEnd] + rest, false)
  {
    hide Fit;
    if ts != [] {
      assert FitPair(ts[0], ds, false);
      assert FitParts(ts[0], ds, false);
      PairTokens(ts[0], []);
      hide Tokens;
      assert (Tokens(ts[0]) + [])[0] == Key;
    }
  }

  /** A pair of a block mapping: the key, then the value. */
  lemma {:induction false} BlockPair(q: Parsing, t: Styled, tail: seq<Token>)
    requires FitPair(t, q.directives, false) && q.tokens == Tokens(t) + tail && q.state == BlockMappingKey
    requires PairOver(tail, false)
    ensures var p := q.(state := BlockMappingValue, tokens := Mid(t, tail));
      && After(BlockKeyMove(q), Events(Plain(t.key))) == Some(p)
      && After(InsideMove(p), Events(Plain(t.val))) == Some(q.(tokens := tail))
    decreases t, 0
  {
    hide After, Events, Plain, Fit, Nest, Child, Tokens, BlockKeyMove, BlockValueMove, Over;
    assert FitParts(t, q.directives, false);
    var mid := Mid(t, tail);
    var p := q.(state := BlockMappingValue, tokens := mid);
    PairTokens(t, tail);
    BlockKeyChild(q, t.key, mid);
    ChildRun(q.(tokens := Tokens(t.key) + mid), t.key, BlockMappingValue, mid, true, true);
    if t.way == Full {
      BlockValueChild(p, t.val, tail);
      ChildRun(p.(tokens := Tokens(t.val) + tail), t.val, BlockMappingKey, tail, true, true);
    } else {
      LeftNothing();
      BlockNoValue(p, tail);
      LeftRun(p, BlockMappingKey, tail);
    }
  }

  lemma {:induction false} BlockKeyChild(q: Parsing, k: Styled, mid: seq<Token>)
    requires (k == Left || Fit(k, q.directives, false, true)) && q.tokens == [Key] + (Tokens(k) + mid) && Closing(mid)
    ensures BlockKeyMove(q) == Child(q.(tokens := Tokens(k) + mid), k, BlockMappingValue, true, true) && Over(mid, true)
  {
    hide Tokens, Nest, Fit;
    assert q.tokens[1..] == Tokens(k) + mid;
    LeftNothing();
    if k != Left {
      Opening(k, q.directives, false, true);
    }
  }

  lemma {:induction false} BlockValueChild(p: Parsing, v: Styled, tail: seq<Token>)
    requires (v == Left || Fit(v, p.directives, false, true)) && p.tokens == [Value] + (Tokens(v) + tail)
    requires Closing(tail)
    requires p.state == BlockMappingValue
    ensures InsideMove(p) == Child(p.(tokens := Tokens(v) + tail), v, BlockMappingKey, true, true) && Over(tail, true)
  {
    hide Tokens, Nest, Fit;
    assert p.tokens[1..] == Tokens(v) + tail;
    LeftNothing();
    if v != Left {
      Opening(v, p.directives, false, true);
    }
  }

  lemma {:induction false} BlockNoValue(p: Parsing, tail: seq<Token>)
    requires p.state == BlockMappingValue && p.tokens == tail && PairOver(tail, false)
    ensures InsideMove(p) == Omit(p, BlockMappingKey)
  {
    hide Nest;
  }

  lemma {:induction false} FlowPairsRun(q: Parsing, ts: seq<Styled>, first: bool, comma: bool, rest: seq<Token>)
    requires FitPairs(ts, q.directives, true) && (ts == [] && first ==> !comma)
    requires q.tokens == Items(ts, first) + (Comma(!comma) + [FlowMappingEnd]) + rest
    requires q.state == FlowMappingKey && q.states != []
    ensures After(FlowKeyMove(q, first), EventsAll(PlainPairs(ts)) + [MappingEnd]) == Some(Popped(q.(tokens := rest)))
    decreases ts, 0
  {
    hide FlowKeyMove, FlowValueMove, FlowPairMove, After, Emits, EventsAll, Items, Tokens, Events, Plain, PlainPairs,
         Fit, FitPairs, FitPair, PairOver, Mid, Comma;
    var end := Comma(!comma) + [FlowMappingEnd];
    if ts == [] {
      FlowPairsEnd(q, first, comma, rest);
    } else {
      var t := ts[0];
      var tail := Items(ts[1..], false) + end + rest;
      FlowPairsFirst(q, ts, first, comma, rest, tail);
      FlowPair(q.(tokens := Tokens(t) + tail), t, tail);
      FlowPairsRun(q.(tokens := tail), ts[1..], false, comma, rest);
      OnePair(ts, MappingEnd);
      KeyThenValue(FlowKeyMove(q, first), Plain(t.key), Plain(t.val), EventsAll(PlainPairs(ts[1..])) + [MappingEnd],
                   q.(state := FlowPairState(t), tokens := Mid(t, tail)), q.(tokens := tail),
                   Some(Popped(q.(tokens := rest))));
    }
  }

  lemma {:induction false} FlowPairsEnd(q: Parsing, first: bool, comma: bool, rest: seq<Token>)
    requires q.tokens == Items([], first) + (Comma(!comma) + [FlowMappingEnd]) + rest && (first ==> !comma)
    ensures After(FlowKeyMove(q, first), EventsAll(PlainPairs([])) + [MappingEnd]) == Some(Popped(q.(tokens := rest)))
  {
    hide After, EventsAll, Nest;
    LastComma(q, first, comma, FlowMappingEnd, rest);
    EndAlone(MappingEnd);
    MoveOnly(MappingEnd, Popped(q.(tokens := rest)));
  }

  /** A comma behind the last entry is skipped. */
  lemma {:induction false} LastComma(q: Parsing, first: bool, comma: bool, end: Token, rest: seq<Token>)
    requires q.tokens == Items([], first) + (Comma(!comma) + [end]) + rest && (first ==> !comma) && end != FlowEntry
    ensures var p := q.(tokens := [end] + rest);
      Separated(q, first, end) == Some(p) && Sees(p, end) && Rest(p) == q.(tokens := rest)
  {
    var body := [end] + rest;
    assert q.tokens == Comma(!comma) + body;
    assert body[1..] == rest;
    if comma {
      assert q.tokens[1..] == body;
    } else {
      assert q.tokens == body;
    }
  }

  lemma {:induction false} FlowPairsFirst(q: Parsing, ts: seq<Styled>, first: bool, comma: bool, rest: seq<Token>,
                                          tail: seq<Token>)
    requires ts != [] && FitPairs(ts, q.directives, true)
    requires q.tokens == Items(ts, first) + (Comma(!comma) + [FlowMappingEnd]) + rest
    requires tail == Items(ts[1..], false) + (Comma(!comma) + [FlowMappingEnd]) + rest
    ensures FlowKeyMove(q, first) == FlowPairMove(q.(tokens := Tokens(ts[0]) + tail)) && PairOver(tail, true)
    ensures FitPair(ts[0], q.directives, true) && FitPairs(ts[1..], q.directives, true) && ts[0].Pair?
  {
    hide Tokens, FlowPairMove, Separated, Comma, Fit;
    FirstItem(q, ts, first, Comma(!comma) + [FlowMappingEnd], rest, tail);
    ItemsNext(ts[1..], comma, FlowMappingEnd, rest);
    Behind(q, first, FlowMappingEnd, Tokens(ts[0]) + tail);
  }

  /** The first entry of a flow collection, behind its comma. */
  lemma {:induction false} FirstItem(q: Parsing, ts: seq<Styled>, first: bool, end: seq<Token>, rest: seq<Token>,
                                     tail: seq<Token>)
    requires ts != [] && q.tokens == Items(ts, first) + end + rest && tail == Items(ts[1..], false) + end + rest
    ensures q.tokens == Comma(first) + (Tokens(ts[0]) + tail)
  {
    hide Tokens, Comma;
    CommaTokens(first, Tokens(ts[0]) + Items(ts[1..], false), end, rest);
    Grouped(Tokens(ts[0]), Items(ts[1..], false), end, rest);
  }

  /** Behind an entry of a flow collection comes a comma or the end. */
  lemma {:induction false} ItemsNext(ts: seq<Styled>, comma: bool, end: Token, rest: seq<Token>)
    ensures var tail := Items(ts, false) + (Comma(!comma) + [end]) + rest; tail[0] == FlowEntry || tail[0] == end
  {
    hide Tokens;
  }

  function FlowPairState(t: Styled): State
    requires t.Pair?
  {
    if t.way == Bare then FlowMappingEmptyValue else FlowMappingValue
  }

  /** A pair of a flow mapping: the key, then the value. */
  lemma {:induction false} FlowPair(q: Parsing, t: Styled, tail: seq<Token>)
    requires FitPair(t, q.directives, true) && q.tokens == Tokens(t) + tail && q.state == FlowMappingKey
    requires PairOver(tail, true)
    ensures var p := q.(state := FlowPairState(t), tokens := Mid(t, tail));
      && After(FlowPairMove(q), Events(Plain(t.key))) == Some(p)
      && After(InsideMove(p), Events(Plain(t.val))) == Some(q.(tokens := tail))
    decreases t, 0
  {
    hide After, Events, Plain, Fit, Nest, Child, Tokens, FlowPairMove, FlowValueMove, Over;
    assert FitParts(t, q.directives, true);
    var mid := Mid(t, tail);
    var p := q.(state := FlowPairState(t), tokens := mid);
    PairTokens(t, tail);
    FlowKeyChild(q, t, mid);
    ChildRun(q.(tokens := Tokens(t.key) + mid), t.key, FlowPairState(t), mid, false, false);
    if t.way == Full {
      FlowValueChild(p, t.val, tail);
      ChildRun(p.(tokens := Tokens(t.val) + tail), t.val, FlowMappingKey, tail, false, false);
    } else {
      LeftNothing();
      FlowNoValue(p, tail);
      LeftRun(p, FlowMappingKey, tail);
    }
  }

  lemma {:induction false} FlowKeyChild(q: Parsing, t: Styled, mid: seq<Token>)
    requires FitPair(t, q.directives, true) && q.tokens == (if t.way == Bare then [] else [Key]) + (Tokens(t.key) + mid)
    requires mid != [] && (mid[0] == Value || PairOver(mid, true))
    ensures FlowPairMove(q) == Child(q.(tokens := Tokens(t.key) + mid), t.key, FlowPairState(t), false, false)
    ensures Over(mid, false) && !(t.key.List? && t.key.style == Indentless)
  {
    hide Tokens, Nest, Fit;
    assert FitParts(t, q.directives, true);
    var k, body := t.key, Tokens(t.key) + mid;
    if t.way == Bare {
      assert q.tokens == body;
    } else {
      assert q.tokens[1..] == body;
    }
    LeftNothing();
    if k != Left {
      Opening(k, q.directives, true, false);
    }
  }

  lemma {:induction false} FlowValueChild(p: Parsing, v: Styled, tail: seq<Token>)
    requires (v == Left || Fit(v, p.directives, true, false)) && p.tokens == [Value] + (Tokens(v) + tail)
    requires PairOver(tail, true)
    requires p.state == FlowMappingValue
    ensures InsideMove(p) == Child(p.(tokens := Tokens(v) + tail), v, FlowMappingKey, false, false) && Over(tail, false)
    ensures !(v.List? && v.style == Indentless)
  {
    hide Tokens, Nest, Fit;
    assert p.tokens[1..] == Tokens(v) + tail;
    LeftNothing();
    if v != Left {
      Opening(v, p.directives, true, false);
    }
  }

  lemma {:induction false} FlowNoValue(p: Parsing, tail: seq<Token>)
    requires (p.state == FlowMappingValue || p.state == FlowMappingEmptyValue) && p.tokens == tail &&
      PairOver(tail, true)
    ensures InsideMove(p) == Omit(p, FlowMappingKey)
  {
    hide Nest;
  }

  /** The production of a block mapping allows a VALUE without a KEY, but the parser does
      not: so a pair is parsed as written exactly when its KEY is. */
  lemma {:induction false} BlockPairIff(q: Parsing, t: Styled, tail: seq<Token>)
    requires FitParts(t, q.directives, false) && t.way != Bare && q.tokens == Tokens(t) + tail && PairOver(tail, false)
    requires q.state == BlockMappingKey
    ensures After(InsideMove(q), Events(Plain(t.key)) + Events(Plain(t.val))) == Some(q.(tokens := tail)) <==>
            t.way != ValueOnly
  {
    var k, v := Events(Plain(t.key)), Events(Plain(t.val));
    EventsSome(Plain(t.key));
    EventsSome(Plain(t.val));
    if t.way == ValueOnly {
      ValueAlone(q);
    } else {
      hide After, Events, Plain, Fit, Tokens, InsideMove;
      BlockPair(q, t, tail);
      BlockKeyState(q);
      NodeThen(InsideMove(q), k, v, q.(state := BlockMappingValue, tokens := Mid(t, tail)), Some(q.(tokens := tail)));
    }
  }

  lemma {:induction false} BlockKeyState(q: Parsing)
    requires q.state == BlockMappingKey
    ensures InsideMove(q) == BlockKeyMove(q)
  {
    hide BlockKeyMove;
  }

  /** VALUE where a pair of a block mapping should start. */
  lemma {:induction false} ValueAlone(q: Parsing)
    requires q.state == BlockMappingKey && Sees(q, Value)
    ensures InsideMove(q) == Stuck
  {
  }

  lemma {:induction false} CommaTokens(first: bool, a: seq<Token>, b: seq<Token>, c: seq<Token>)
    ensures Comma(first) + a + b + c == Comma(first) + (a + b + c)
  {
  }

  /** Behind the comma, if there is one. */
  lemma {:induction false} Behind(q: Parsing, first: bool, end: Token, body: seq<Token>)
    requires q.tokens == Comma(first) + body && body != [] && end != FlowEntry
    ensures Separated(q, first, end) == Some(q.(tokens := body))
  {
    if first {
      assert q.tokens == body;
    } else {
      assert q.tokens[1..] == body;
    }
  }

  lemma {:induction false} Grouped(a: seq<Token>, b: seq<Token>, c: seq<Token>, d: seq<Token>)
    ensures a + b + c + d == a + (b + c + d)
  {
  }

  // ---------- flow sequences ----------

  lemma {:induction false} ItemsRun(q: Parsing, ts: seq<Styled>, first: bool, comma: bool, rest: seq<Token>)
    requires FitItems(ts, q.directives) && (ts == [] && first ==> !comma) && q.state == FlowSequenceEntry
    requires q.states != []
    requires q.tokens == Items(ts, first) + (Comma(!comma) + [FlowSequenceEnd]) + rest
    ensures After(FlowSequenceMove(q, first), EventsAll(PlainAll(ts)) + [SequenceEnd]) ==
      Some(Popped(q.(tokens := rest)))
    decreases ts, 0
  {
    hide FlowSequenceMove, FlowItemMove, After, Emits, EventsAll, Items, Tokens, Events, Plain, PlainAll, Fit, FitItems,
         FitSingle, Nest, Comma, ItemOver;
    if ts == [] {
      ItemsEnd(q, first, comma, rest);
    } else {
      var tail := Items(ts[1..], false) + (Comma(!comma) + [FlowSequenceEnd]) + rest;
      var q1, q2 := q.(tokens := Tokens(ts[0]) + tail), q.(tokens := tail);
      ItemsFirst(q, ts, first, comma, rest, tail);
      if FitSingle(ts[0], q.directives) {
        SingleRun(q1, ts[0], tail);
      } else {
        ItemNode(q1, ts[0], tail);
        ChildRun(q1, ts[0], FlowSequenceEntry, tail, false, false);
      }
      ItemsRun(q2, ts[1..], false, comma, rest);
      OneChild(ts, SequenceEnd);
      EventsSome(Plain(ts[0]));
      NodeThen(FlowSequenceMove(q, first), Events(Plain(ts[0])), EventsAll(PlainAll(ts[1..])) + [SequenceEnd], q2,
               Some(Popped(q.(tokens := rest))));
    }
  }

  lemma {:induction false} ItemsEnd(q: Parsing, first: bool, comma: bool, rest: seq<Token>)
    requires q.tokens == Items([], first) + (Comma(!comma) + [FlowSequenceEnd]) + rest && (first ==> !comma)
    ensures After(FlowSequenceMove(q, first), EventsAll(PlainAll([])) + [SequenceEnd]) ==
      Some(Popped(q.(tokens := rest)))
  {
    hide After, EventsAll, PlainAll, Nest;
    LastComma(q, first, comma, FlowSequenceEnd, rest);
    EndAlone(SequenceEnd);
    MoveOnly(SequenceEnd, Popped(q.(tokens := rest)));
  }

  /** The end of an entry of a flow sequence. */
  predicate ItemOver(tail: seq<Token>) {
    tail != [] && tail[0] in {FlowEntry, FlowSequenceEnd}
  }

  lemma {:induction false} ItemsFirst(q: Parsing, ts: seq<Styled>, first: bool, comma: bool, rest: seq<Token>,
                                      tail: seq<Token>)
    requires ts != [] && FitItems(ts, q.directives)
    requires q.tokens == Items(ts, first) + (Comma(!comma) + [FlowSequenceEnd]) + rest
    requires tail == Items(ts[1..], false) + (Comma(!comma) + [FlowSequenceEnd]) + rest
    ensures FlowSequenceMove(q, first) == FlowItemMove(q.(tokens := Tokens(ts[0]) + tail)) && ItemOver(tail)
    ensures FitItems(ts[1..], q.directives) && (Fit(ts[0], q.directives, true, false) || FitSingle(ts[0], q.directives))
  {
    hide Tokens, FlowItemMove, Fit, FitSingle, Separated, Comma;
    FirstItem(q, ts, first, Comma(!comma) + [FlowSequenceEnd], rest, tail);
    ItemsNext(ts[1..], comma, FlowSequenceEnd, rest);
    Behind(q, first, FlowSequenceEnd, Tokens(ts[0]) + tail);
  }

  lemma {:induction false} ItemNode(q: Parsing, t: Styled, tail: seq<Token>)
    requires Fit(t, q.directives, true, false) && q.tokens == Tokens(t) + tail && ItemOver(tail)
    ensures FlowItemMove(q) == Child(q, t, FlowSequenceEntry, false, false)
    ensures !(t.List? && t.style == Indentless) && Over(tail, false)
  {
    hide Tokens, Nest;
    Opening(t, q.directives, true, false);
  }

  /** A single pair: a mapping of its own. */
  lemma {:induction false} SingleRun(q: Parsing, t: Styled, tail: seq<Token>)
    requires FitSingle(t, q.directives) && q.tokens == Tokens(t) + tail && q.state == FlowSequenceEntry
    requires ItemOver(tail)
    ensures After(FlowItemMove(q), Events(Plain(t))) == Some(q.(tokens := tail))
    decreases t, 1
  {
    hide FlowItemMove, InsideMove, After, Emits, Tokens, Events, Plain, Fit, Child, Over;
    if t.way.Skip? {
      SkippedRun(q, t, tail);
      return;
    }
    assert Indicated(t, q.directives) && FitParts(t, q.directives, true);
    var k, v := t.key, t.val;
    var mid := Mid(t, tail);
    var q1 := q.(state := EntryMappingKey, tokens := Tokens(k) + mid);
    var p2, p3 := q.(state := EntryMappingValue, tokens := mid), q.(state := EntryMappingEnd, tokens := tail);
    SingleStart(q, t, tail);
    SingleEnd(q, tail);
    if k == Left {
      SingleNothing(q, tail);
    } else {
      SingleKey(q, t, tail);
      ChildRun(q1, k, EntryMappingValue, mid, false, false);
      SingleValue(q, t, tail);
      KeyThenValue(InsideMove(q1), Plain(k), Plain(v), [MappingEnd], p2, p3, Some(q.(tokens := tail)));
    }
  }

  lemma {:induction false} SingleStart(q: Parsing, t: Styled, tail: seq<Token>)
    requires t.Pair? && (t.way == Full || t.way == KeyOnly) && q.tokens == Tokens(t) + tail
    ensures var q1 := q.(state := EntryMappingKey, tokens := Tokens(t.key) + Mid(t, tail));
      var inner := Events(Plain(t.key)) + (Events(Plain(t.val)) + [MappingEnd]);
      && FlowItemMove(q) == Move(MappingStart(None, None), q1)
      && After(FlowItemMove(q), Events(Plain(t))) == After(InsideMove(q1), inner)
  {
    var k, v := t.key, t.val;
    var q1 := q.(state := EntryMappingKey, tokens := Tokens(k) + Mid(t, tail));
    var inner := Events(Plain(k)) + (Events(Plain(v)) + [MappingEnd]);
    PairTokens(t, tail);
    SingleEvents(Plain(k), Plain(v));
    hide InsideMove, Tokens, Plain, Events, After, FlowItemMove;
    ItemKey(q, Tokens(k) + Mid(t, tail));
    MoveThen(MappingStart(None, None), q1, inner);
  }

  lemma {:induction false} SingleEvents(k: Tree, v: Tree)
    ensures Events(MappingTree(None, None, [k, v])) ==
      [MappingStart(None, None)] + (Events(k) + (Events(v) + [MappingEnd]))
  {
    assert [k, v][1..] == [v] && [v][1..] == [];
    assert EventsAll([v]) == Events(v) + EventsAll([]);
    assert EventsAll([k, v]) == Events(k) + EventsAll([v]);
  }

  lemma {:induction false} MoveThen(e: Event, q: Parsing, inner: seq<Event>)
    requires inner != []
    ensures After(Move(e, q), [e] + inner) == After(InsideMove(q), inner)
  {
    hide InsideMove;
    assert ([e] + inner)[1..] == inner;
  }

  lemma {:induction false} SingleKey(q: Parsing, t: Styled, tail: seq<Token>)
    requires Indicated(t, q.directives) && t.key != Left && ItemOver(tail)
    ensures var mid := Mid(t, tail);
      var q1 := q.(state := EntryMappingKey, tokens := Tokens(t.key) + mid);
      InsideMove(q1) == Child(q1, t.key, EntryMappingValue, false, false) && Over(mid, false)
    ensures !(t.key.List? && t.key.style == Indentless)
  {
    hide Tokens, Nest, Fit;
    assert FitParts(t, q.directives, true);
    Opening(t.key, q.directives, true, false);
  }

  /** KEY and the token behind it: the key is empty, and the value as written. */
  lemma {:induction false} SkippedRun(q: Parsing, t: Styled, tail: seq<Token>)
    requires Skips(t, q.directives) && q.tokens == Tokens(t) + tail && q.state == FlowSequenceEntry
    requires ItemOver(tail)
    ensures After(FlowItemMove(q), Events(Plain(t))) == Some(q.(tokens := tail))
    decreases t, 0
  {
    var x, v, mid := t.way.x, t.val, SkipMid(t, tail);
    SkipTokens(t, tail);
    PlainPair(t);
    hide FlowItemMove, InsideMove, After, Emits, Tokens, Events, Plain, Fit, Child, Over;
    var q1 := q.(state := EntryMappingKey, tokens := [x] + mid);
    var p2, p3 := q.(state := EntryMappingValue, tokens := mid), q.(state := EntryMappingEnd, tokens := tail);
    ItemKey(q, [x] + mid);
    EntryKeyLeft(q1, x, mid);
    SkipValue(q, t, tail);
    SingleEnd(q, tail);
    EventsSome(Plain(v));
    LeftEvents();
    SingleEvents(Plain(Left), Plain(v));
    NodeThen(InsideMove(p2), Events(Plain(v)), [MappingEnd], p3, Some(q.(tokens := tail)));
    MoveThen(Scalar(None, None, ""), p2, Events(Plain(v)) + [MappingEnd]);
    MoveThen(MappingStart(None, None), q1, [Scalar(None, None, "")] + (Events(Plain(v)) + [MappingEnd]));
  }

  function SkipMid(t: Styled, tail: seq<Token>): seq<Token>
    requires t.Pair? && t.way.Skip?
  {
    if t.way.valued then [Value] + (Tokens(t.val) + tail) else tail
  }

  lemma {:induction false} SkipTokens(t: Styled, tail: seq<Token>)
    requires t.Pair? && t.way.Skip?
    ensures Tokens(t) + tail == [Key] + ([t.way.x] + SkipMid(t, tail))
  {
    var v := Tokens(t.val);
    assert Tokens(t) == [Key] + ([t.way.x] + if t.way.valued then [Value] + v else []);
    hide Tokens;
    assert [Value] + v + tail == [Value] + (v + tail);
  }

  lemma {:induction false} SkipValue(q: Parsing, t: Styled, tail: seq<Token>)
    requires Skips(t, q.directives) && ItemOver(tail)
    ensures var p := q.(state := EntryMappingValue, tokens := SkipMid(t, tail));
      After(InsideMove(p), Events(Plain(t.val))) == Some(q.(state := EntryMappingEnd, tokens := tail))
    decreases t, 0, 0
  {
    hide After, Events, Plain, Fit, Tokens, InsideMove, Child;
    var p := q.(state := EntryMappingValue, tokens := SkipMid(t, tail));
    LeftNothing();
    if t.way.valued {
      EntryValueChild(p, t.val, tail);
      ChildRun(p.(tokens := Tokens(t.val) + tail), t.val, EntryMappingEnd, tail, false, false);
    } else {
      EntryValueLeft(p);
      LeftRun(p, EntryMappingEnd, tail);
    }
  }

  lemma {:induction false} SingleValue(q: Parsing, t: Styled, tail: seq<Token>)
    requires Indicated(t, q.directives) && ItemOver(tail)
    ensures var p := q.(state := EntryMappingValue, tokens := Mid(t, tail));
      After(InsideMove(p), Events(Plain(t.val))) == Some(q.(state := EntryMappingEnd, tokens := tail))
    decreases t, 0
  {
    hide After, Events, Plain, Fit, Tokens, InsideMove, Child;
    assert FitParts(t, q.directives, true);
    var p := q.(state := EntryMappingValue, tokens := Mid(t, tail));
    LeftNothing();
    if t.way == Full {
      EntryValueChild(p, t.val, tail);
      ChildRun(p.(tokens := Tokens(t.val) + tail), t.val, EntryMappingEnd, tail, false, false);
    } else {
      EntryValueLeft(p);
      LeftRun(p, EntryMappingEnd, tail);
    }
  }

  lemma {:induction false} EntryValueChild(p: Parsing, v: Styled, tail: seq<Token>)
    requires (v == Left || Fit(v, p.directives, true, false)) && ItemOver(tail)
    requires p.state == EntryMappingValue && p.tokens == [Value] + (Tokens(v) + tail)
    ensures InsideMove(p) == Child(p.(tokens := Tokens(v) + tail), v, EntryMappingEnd, false, false)
    ensures !(v.List? && v.style == Indentless) && Over(tail, false)
  {
    hide Tokens, Nest;
    assert p.tokens[1..] == Tokens(v) + tail;
    LeftNothing();
    if v != Left {
      Opening(v, p.directives, true, false);
    }
  }

  lemma {:induction false} SingleEnd(q: Parsing, tail: seq<Token>)
    requires tail != [] && q.state == FlowSequenceEntry
    ensures After(InsideMove(q.(state := EntryMappingEnd, tokens := tail)), [MappingEnd]) == Some(q.(tokens := tail))
  {
  }

  /** Neither key nor value, but VALUE. */
  lemma {:induction false} SingleNothing(q: Parsing, tail: seq<Token>)
    requires ItemOver(tail) && q.state == FlowSequenceEntry
    ensures var q1 := q.(state := EntryMappingKey, tokens := Tokens(Left) + ([Value] + (Tokens(Left) + tail)));
      After(InsideMove(q1), Events(Plain(Left)) + (Events(Plain(Left)) + [MappingEnd])) == Some(q.(tokens := tail))
  {
    var q1 := q.(state := EntryMappingKey, tokens := Tokens(Left) + ([Value] + (Tokens(Left) + tail)));
    assert q1.tokens == [Value] + tail;
    var none := Scalar(None, None, "");
    assert Events(Plain(Left)) == [none];
    hide InsideMove, After;
    SkipRun(q1, Value, tail, q);
  }

  /** That token is skipped, and if no VALUE comes behind it, the pair is over. */
  lemma {:induction false} SkipRun(q1: Parsing, x: Token, rest: seq<Token>, q: Parsing)
    requires q1 == q.(state := EntryMappingKey, tokens := [x] + rest) && q.state == FlowSequenceEntry
    requires NoKey(x) && rest != [] && rest[0] != Value
    ensures var none := Scalar(None, None, "");
      && InsideMove(q1) == Move(none, q.(state := EntryMappingValue, tokens := rest))
      && InsideMove(q.(state := EntryMappingValue, tokens := rest)) ==
         Move(none, q.(state := EntryMappingEnd, tokens := rest))
      && InsideMove(q.(state := EntryMappingEnd, tokens := rest)) == Move(MappingEnd, q.(tokens := rest))
      && After(InsideMove(q1), [none] + ([none] + [MappingEnd])) == Some(q.(tokens := rest))
  {
    hide InsideMove, After;
    var none := Scalar(None, None, "");
    var p2, p3 := q.(state := EntryMappingValue, tokens := rest), q.(state := EntryMappingEnd, tokens := rest);
    EntryKeyLeft(q1, x, rest);
    EntryValueLeft(p2);
    EntryOver(p3);
    SingleEnd(q, rest);
    MoveThen(none, p3, [MappingEnd]);
    MoveThen(none, p2, [none] + [MappingEnd]);
  }

  lemma {:induction false} ItemKey(q: Parsing, body: seq<Token>)
    requires q.tokens == [Key] + body
    ensures FlowItemMove(q) == Move(MappingStart(None, None), q.(state := EntryMappingKey, tokens := body))
  {
    hide Nest;
    assert q.tokens[1..] == body;
  }

  lemma {:induction false} EntryKeyLeft(q: Parsing, x: Token, rest: seq<Token>)
    requires q.state == EntryMappingKey && q.tokens == [x] + rest && NoKey(x)
    ensures InsideMove(q) == Move(Scalar(None, None, ""), q.(state := EntryMappingValue, tokens := rest))
  {
    hide Nest;
    assert q.tokens[1..] == rest;
  }

  lemma {:induction false} EntryValueLeft(q: Parsing)
    requires q.state == EntryMappingValue && q.tokens != [] && q.tokens[0] != Value
    ensures InsideMove(q) == Omit(q, EntryMappingEnd) == Move(Scalar(None, None, ""), q.(state := EntryMappingEnd))
  {
    hide Nest;
  }

  lemma {:induction false} EntryOver(q: Parsing)
    requires q.state == EntryMappingEnd && q.tokens != []
    ensures InsideMove(q) == Move(MappingEnd, q.(state := FlowSequenceEntry))
  {
  }

  lemma {:induction false} NoComma(q: Parsing)
    requires q.state == FlowSequenceEntry && q.tokens != [] && q.tokens[0] != FlowSequenceEnd &&
      q.tokens[0] != FlowEntry
    ensures InsideMove(q) == Stuck
  {
    hide FlowItemMove;
  }

  /** The production allows a single pair without a key, with or without VALUE. But the parser
      skips the token behind KEY, be it the VALUE, the comma or the bracket: it gives the pair
      neither key nor value, and then meets what is left where a comma or bracket should be. */
  lemma {:induction false} KeyLeftOut(q: Parsing, x: Token, rest: seq<Token>)
    requires q.tokens == [Key] + ([x] + rest) && q.state == FlowSequenceEntry && NoKey(x)
    requires rest != [] && !NoKey(rest[0])
    ensures var none := Scalar(None, None, "");
      var q1, stop := q.(state := EntryMappingKey, tokens := [x] + rest), q.(tokens := rest);
      && FlowItemMove(q) == Move(MappingStart(None, None), q1)
      && InsideMove(q1) == Move(none, stop.(state := EntryMappingValue))
      && InsideMove(stop.(state := EntryMappingValue)) == Move(none, stop.(state := EntryMappingEnd))
      && InsideMove(stop.(state := EntryMappingEnd)) == Move(MappingEnd, stop) && InsideMove(stop) == Stuck
  {
    hide InsideMove, FlowItemMove, After;
    ItemKey(q, [x] + rest);
    SkipRun(q.(state := EntryMappingKey, tokens := [x] + rest), x, rest, q);
    NoComma(q.(tokens := rest));
  }

  /** KEY alone before a comma: the comma is lost, and the next entry is refused. */
  lemma {:induction false} KeyBeforeComma(q: Parsing, t: Styled, tail: seq<Token>)
    requires Fit(t, q.directives, true, false) && q.state == FlowSequenceEntry
    requires q.tokens == Tokens(Styled.Pair(KeyOnly, Left, Left)) + ([FlowEntry] + (Tokens(t) + tail))
    ensures var pair := [MappingStart(None, None), Scalar(None, None, ""), Scalar(None, None, ""), MappingEnd];
      After(FlowItemMove(q), pair) == Some(q.(tokens := Tokens(t) + tail)) &&
      InsideMove(q.(tokens := Tokens(t) + tail)) == Stuck
  {
    Opening(t, q.directives, true, false);
    LeftNothing();
    KeyOnlyTokens();
    hide InsideMove, FlowItemMove, After, Tokens, Fit;
    LostToken(q, FlowEntry, Tokens(t) + tail);
  }

  /** KEY alone before the bracket: the bracket is lost, and the sequence goes on behind it. */
  lemma {:induction false} KeyBeforeBracket(q: Parsing, rest: seq<Token>)
    requires q.state == FlowSequenceEntry && rest != [] && !NoKey(rest[0])
    requires q.tokens == Tokens(Styled.Pair(KeyOnly, Left, Left)) + ([FlowSequenceEnd] + rest)
    ensures var pair := [MappingStart(None, None), Scalar(None, None, ""), Scalar(None, None, ""), MappingEnd];
      After(FlowItemMove(q), pair) == Some(q.(tokens := rest)) && InsideMove(q.(tokens := rest)) == Stuck
  {
    KeyOnlyTokens();
    hide InsideMove, FlowItemMove, After, Tokens;
    LostToken(q, FlowSequenceEnd, rest);
  }

  lemma {:induction false} KeyOnlyTokens()
    ensures Tokens(Styled.Pair(KeyOnly, Left, Left)) == [Key]
  {
    assert Tokens(Left) == [];
  }

  lemma {:induction false} LostToken(q: Parsing, x: Token, rest: seq<Token>)
    requires q.tokens == [Key] + ([x] + rest) && q.state == FlowSequenceEntry && NoKey(x)
    requires rest != [] && !NoKey(rest[0])
    ensures var pair := [MappingStart(None, None), Scalar(None, None, ""), Scalar(None, None, ""), MappingEnd];
      After(FlowItemMove(q), pair) == Some(q.(tokens := rest)) && InsideMove(q.(tokens := rest)) == Stuck
  {
    hide InsideMove, FlowItemMove, After;
    KeyLeftOut(q, x, rest);
    var none := Scalar(None, None, "");
    var q1 := q.(state := EntryMappingKey, tokens := [x] + rest);
    SkipRun(q1, x, rest, q);
    MoveThen(MappingStart(None, None), q1, [none] + ([none] + [MappingEnd]));
    assert [MappingStart(None, None)] + ([none] + ([none] + [MappingEnd])) ==
           [MappingStart(None, None), none, none, MappingEnd];
  }

  // ---------- tokens never come back ----------

  lemma {:induction false} EmitsRead(p: Parsing, es: seq<Event>)
    ensures Emits(p, es).Some? ==> |Emits(p, es).value.tokens| <= |p.tokens|
    decreases |es|
  {
    hide InsideMove, Budget;
    if es != [] && Emits(p, es).Some? {
      assert Emits(p, es) == After(InsideMove(p), es);
      InsideCosts(p);
      EmitsRead(InsideMove(p).next, es[1..]);
    }
  }

  /** So a single pair is parsed as written exactly when it has a key, or VALUE but no value. */
  lemma {:induction false} SingleIff(q: Parsing, t: Styled, tail: seq<Token>)
    requires Indicated(t, q.directives) && q.tokens == Tokens(t) + tail && q.state == FlowSequenceEntry
    requires ItemOver(tail)
    ensures After(FlowItemMove(q), Events(Plain(t))) == Some(q.(tokens := tail)) <==>
            t.key != Left || (t.way == Full && t.val == Left)
  {
    hide Fit, Tokens, Events, Plain, FlowItemMove, After, ItemOver;
    if t.key != Left || (t.way == Full && t.val == Left) {
      SingleRun(q, t, tail);
    } else if t.way == Full {
      LostValue(q, t, tail);
    } else {
      LostEnd(q, t, tail);
    }
  }

  /** The value stands where the pair should be over. */
  lemma {:induction false} LostValue(q: Parsing, t: Styled, tail: seq<Token>)
    requires Indicated(t, q.directives) && t.key == Left && t.val != Left && t.way == Full
    requires q.tokens == Tokens(t) + tail && q.state == FlowSequenceEntry
    ensures After(FlowItemMove(q), Events(Plain(t))) != Some(q.(tokens := tail))
  {
    hide Fit, Tokens, Events, Plain, FlowItemMove, After, InsideMove;
    assert FitParts(t, q.directives, true);
    var v := t.val;
    var rest := Tokens(v) + tail;
    LeftNothing();
    PairTokens(t, tail);
    assert [] + ([Value] + rest) == [Value] + rest;
    Opening(v, q.directives, true, false);
    KeyLeftOut(q, Value, rest);
    SingleEvents(Plain(Left), Plain(v));
    EventsSome(Plain(v));
    LeftEvents();
    PlainPair(t);
    StopsEarly(q, q.(tokens := rest), Events(Plain(v)));
  }

  lemma {:induction false} LeftEvents()
    ensures Events(Plain(Left)) == [Scalar(None, None, "")]
  {
  }

  lemma {:induction false} PlainPair(t: Styled)
    requires t.Pair?
    ensures Plain(t) == MappingTree(None, None, [Plain(t.key), Plain(t.val)])
  {
  }

  /** The events that were meant do not lead behind the pair. */
  lemma {:induction false} StopsEarly(q: Parsing, stop: Parsing, es: seq<Event>)
    requires var none := Scalar(None, None, "");
      && FlowItemMove(q).Move? && FlowItemMove(q).e == MappingStart(None, None)
      && InsideMove(FlowItemMove(q).next) == Move(none, stop.(state := EntryMappingValue))
      && InsideMove(stop.(state := EntryMappingValue)) == Move(none, stop.(state := EntryMappingEnd))
      && InsideMove(stop.(state := EntryMappingEnd)) == Move(MappingEnd, stop) && InsideMove(stop) == Stuck
    requires es != []
    ensures var r := After(FlowItemMove(q), [MappingStart(None, None)] +
      ([Scalar(None, None, "")] + (es + [MappingEnd])));
      r.None? || r == Some(stop)
  {
    hide InsideMove, FlowItemMove;
    var none := Scalar(None, None, "");
    var a := es + [MappingEnd];
    MoveThen(MappingStart(None, None), FlowItemMove(q).next, [none] + a);
    MoveThen(none, stop.(state := EntryMappingValue), a);
    assert a[1..] != [] && a[1..] == es[1..] + [MappingEnd];
    var b := a[1..];
    var p := stop.(state := EntryMappingEnd);
    assert After(Move(none, p), a) == if a[0] == none then Emits(p, b) else None;
    assert Emits(p, b) == if b[0] == MappingEnd then Emits(stop, b[1..]) else None;
    assert Emits(stop, b[1..]) == if b[1..] == [] then Some(stop) else None;
  }

  /** The comma or the bracket is gone, and tokens never come back. */
  lemma {:induction false} LostEnd(q: Parsing, t: Styled, tail: seq<Token>)
    requires Indicated(t, q.directives) && t.key == Left && t.way == KeyOnly
    requires q.tokens == Tokens(t) + tail && q.state == FlowSequenceEntry && ItemOver(tail)
    ensures After(FlowItemMove(q), Events(Plain(t))) != Some(q.(tokens := tail))
  {
    hide Fit, Tokens, Events, Plain, FlowItemMove, InsideMove, Emits, After;
    var q1, q2 := q.(state := EntryMappingKey, tokens := tail), q.(state := EntryMappingValue, tokens := tail[1..]);
    LeftNothing();
    LeftEvents();
    SingleStart(q, t, tail);
    assert [] + tail == tail == [tail[0]] + tail[1..];
    EntryKeyLeft(q1, tail[0], tail[1..]);
    var inner := Events(Plain(t.val)) + [MappingEnd];
    MoveThenEmits(Scalar(None, None, ""), q2, inner);
    EmitsRead(q2, inner);
  }

  lemma {:induction false} MoveThenEmits(e: Event, q: Parsing, inner: seq<Event>)
    ensures After(Move(e, q), [e] + inner) == Emits(q, inner)
  {
    hide InsideMove, Emits;
    assert ([e] + inner)[1..] == inner;
  }
}
