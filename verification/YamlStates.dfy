/** The states of the event parser of parser.c, and its moves as functions: what each state
    function does to the tokens and to the stack of states. */
module YamlStates {
  import opened Basics
  import opened YamlNodes
  import opened YamlGrammar

  datatype Token =
    | StreamStartToken
    | StreamEndToken
    | VersionDirective(major: int, minor: int)
    | TagDirective(handle: string, prefix: string)
    | DocumentStartToken
    | DocumentEndToken
    | BlockSequenceStart
    | BlockMappingStart
    | BlockEnd
    | FlowSequenceStart
    | FlowSequenceEnd
    | FlowMappingStart
    | FlowMappingEnd
    | BlockEntry
    | FlowEntry
    | Key
    | Value
    | AliasToken(anchor: string)
    | Anchor(anchor: string)
    | Tag(handle: string, suffix: string)
    | ScalarToken(text: string)

  datatype State =
    | AtStreamStart
    | AtImplicitDocument
    | AtDocument
    | DocumentContent
    | AtDocumentEnd
    | BlockNode
    | BlockNodeOrIndentless
    | FlowNode
    | BlockSequenceFirst
    | BlockSequenceEntry
    | IndentlessEntry
    | BlockMappingFirst
    | BlockMappingKey
    | BlockMappingValue
    | FlowSequenceFirst
    | FlowSequenceEntry
    | EntryMappingKey
    | EntryMappingValue
    | EntryMappingEnd
    | FlowMappingFirst
    | FlowMappingKey
    | FlowMappingValue
    | FlowMappingEmptyValue
    | AtEnd

  // ---------- tags ----------

  datatype Directive = Directive(handle: string, prefix: string)

  function FindHandle(ds: seq<Directive>, handle: string): (k: nat)
    ensures k <= |ds| && (k < |ds| ==> ds[k].handle == handle) && forall i :: 0 <= i < k ==> ds[i].handle != handle
  {
    if ds == [] then 0 else if ds[0].handle == handle then 0 else 1 + FindHandle(ds[1..], handle)
  }

  /** Anchor and tag in front of a node, each at most once and in either order. */
  datatype Props = Props(anchor: Option<string>, handle: Option<string>, suffix: string, count: nat)

  function ReadProps(tokens: seq<Token>): (p: Props)
    ensures p.count <= |tokens|
  {
    if tokens == [] then Props(None, None, "", 0)
    else if tokens[0].Anchor? then
      if |tokens| > 1 && tokens[1].Tag? then Props(Some(tokens[0].anchor), Some(tokens[1].handle), tokens[1].suffix, 2)
      else Props(Some(tokens[0].anchor), None, "", 1)
    else if tokens[0].Tag? then
      if |tokens| > 1 && tokens[1].Anchor? then
        Props(Some(tokens[1].anchor), Some(tokens[0].handle), tokens[0].suffix, 2)
      else Props(None, Some(tokens[0].handle), tokens[0].suffix, 1)
    else Props(None, None, "", 0)
  }

  /** The tag that a handle and a suffix stand for; None if the handle is not known. */
  function ResolveTag(ds: seq<Directive>, p: Props): Option<Option<string>> {
    if p.handle.None? then Some(None)
    else if p.handle.value == "" then Some(Some(p.suffix))
    else
      var k := FindHandle(ds, p.handle.value);
      if k < |ds| then Some(Some(ds[k].prefix + p.suffix)) else None
  }

  // ---------- the moves ----------

  /** What the parser goes on from. */
  datatype Parsing = Parsing(tokens: seq<Token>, state: State, states: seq<State>, directives: seq<Directive>)

  datatype Move = Stuck | Move(e: Event, next: Parsing)

  function Rest(p: Parsing): Parsing {
    if p.tokens == [] then p else p.(tokens := p.tokens[1..])
  }

  /** The state on top of the stack resumes; where this is used there is one. */
  function Popped(p: Parsing): Parsing {
    if p.states == [] then p.(state := AtEnd)
    else p.(state := p.states[|p.states| - 1], states := p.states[..|p.states| - 1])
  }

  predicate Sees(p: Parsing, t: Token) {
    p.tokens != [] && p.tokens[0] == t
  }

  function NodeMove(p: Parsing, block: bool, indentless: bool): Move {
    if p.tokens == [] then Stuck
    else if p.tokens[0].AliasToken? then Move(Alias(p.tokens[0].anchor), Popped(Rest(p)))
    else
      var props := ReadProps(p.tokens);
      var tag := ResolveTag(p.directives, props);
      if tag.None? then Stuck
      else ContentMove(p.(tokens := p.tokens[props.count..]), props.anchor, tag.value, block, indentless)
  }

  function ContentMove(p: Parsing, anchor: Option<string>, tag: Option<string>, block: bool, indentless: bool): Move {
    if p.tokens == [] then Stuck
    else
      var t := p.tokens[0];
      if indentless && t == BlockEntry then Move(SequenceStart(anchor, tag), p.(state := IndentlessEntry))
      else if t.ScalarToken? then Move(Scalar(anchor, tag, t.text), Popped(Rest(p)))
      else if t == FlowSequenceStart then Move(SequenceStart(anchor, tag), p.(state := FlowSequenceFirst))
      else if t == FlowMappingStart then Move(MappingStart(anchor, tag), p.(state := FlowMappingFirst))
      else if block && t == BlockSequenceStart then Move(SequenceStart(anchor, tag), p.(state := BlockSequenceFirst))
      else if block && t == BlockMappingStart then Move(MappingStart(anchor, tag), p.(state := BlockMappingFirst))
      else if anchor.Some? || tag.Some? then Move(Scalar(anchor, tag, ""), Popped(p))
      else Stuck
  }

  /** A nested node, then state `next`. */
  function Nest(p: Parsing, next: State, block: bool, indentless: bool): Move {
    NodeMove(p.(states := p.states + [next]), block, indentless)
  }

  /** An empty scalar instead of a node, then state `next`. */
  function Omit(p: Parsing, next: State): Move {
    Move(Scalar(None, None, ""), p.(state := next))
  }

  function BlockSequenceMove(p: Parsing): Move {
    if Sees(p, BlockEntry) then
      var q := Rest(p);
      if q.tokens == [] then Stuck
      else if Sees(q, BlockEntry) || Sees(q, BlockEnd) then Omit(q, BlockSequenceEntry)
      else Nest(q, BlockSequenceEntry, true, false)
    else if Sees(p, BlockEnd) then Move(SequenceEnd, Popped(Rest(p)))
    else Stuck
  }

  function IndentlessMove(p: Parsing): Move {
    if p.tokens == [] then Stuck
    else if p.tokens[0] == BlockEntry then
      var q := Rest(p);
      if q.tokens == [] then Stuck
      else if Sees(q, BlockEntry) || Sees(q, Key) || Sees(q, Value) || Sees(q, BlockEnd) then Omit(q, IndentlessEntry)
      else Nest(q, IndentlessEntry, true, false)
    else Move(SequenceEnd, Popped(p))
  }

  function BlockKeyMove(p: Parsing): Move {
    if Sees(p, Key) then
      var q := Rest(p);
      if q.tokens == [] then Stuck
      else if Sees(q, Key) || Sees(q, Value) || Sees(q, BlockEnd) then Omit(q, BlockMappingValue)
      else Nest(q, BlockMappingValue, true, true)
    else if Sees(p, BlockEnd) then Move(MappingEnd, Popped(Rest(p)))
    else Stuck
  }

  function BlockValueMove(p: Parsing): Move {
    if p.tokens == [] then Stuck
    else if p.tokens[0] != Value then Omit(p, BlockMappingKey)
    else
      var q := Rest(p);
      if q.tokens == [] then Stuck
      else if Sees(q, Key) || Sees(q, Value) || Sees(q, BlockEnd) then Omit(q, BlockMappingKey)
      else Nest(q, BlockMappingKey, true, true)
  }

  /** In a flow collection behind its first entry: at the end, or behind the comma. */
  function Separated(p: Parsing, first: bool, end: Token): Option<Parsing> {
    if p.tokens == [] then None
    else if p.tokens[0] == end || first then Some(p)
    else if p.tokens[0] == FlowEntry && |p.tokens| > 1 then Some(Rest(p))
    else None
  }

  function FlowSequenceMove(p: Parsing, first: bool): Move {
    var q := Separated(p, first, FlowSequenceEnd);
    if q.None? then Stuck else FlowItemMove(q.value)
  }

  function FlowItemMove(p: Parsing): Move {
    if Sees(p, Key) then Move(MappingStart(None, None), Rest(p).(state := EntryMappingKey))
    else if Sees(p, FlowSequenceEnd) then Move(SequenceEnd, Popped(Rest(p)))
    else Nest(p, FlowSequenceEntry, false, false)
  }

  /** When the key is left out, the token that shows it is skipped, even if it is the VALUE. */
  function EntryKeyMove(p: Parsing): Move {
    if p.tokens == [] then Stuck
    else if Sees(p, Value) || Sees(p, FlowEntry) || Sees(p, FlowSequenceEnd) then Omit(Rest(p), EntryMappingValue)
    else Nest(p, EntryMappingValue, false, false)
  }

  function EntryValueMove(p: Parsing): Move {
    if p.tokens == [] then Stuck
    else if p.tokens[0] != Value then Omit(p, EntryMappingEnd)
    else
      var q := Rest(p);
      if q.tokens == [] then Stuck
      else if Sees(q, FlowEntry) || Sees(q, FlowSequenceEnd) then Omit(q, EntryMappingEnd)
      else Nest(q, EntryMappingEnd, false, false)
  }

  function EntryEndMove(p: Parsing): Move {
    if p.tokens == [] then Stuck else Move(MappingEnd, p.(state := FlowSequenceEntry))
  }

  function FlowKeyMove(p: Parsing, first: bool): Move {
    var q := Separated(p, first, FlowMappingEnd);
    if q.None? then Stuck else FlowPairMove(q.value)
  }

  function FlowPairMove(p: Parsing): Move {
    if Sees(p, Key) then
      var q := Rest(p);
      if q.tokens == [] then Stuck
      else if Sees(q, Value) || Sees(q, FlowEntry) || Sees(q, FlowMappingEnd) then Omit(q, FlowMappingValue)
      else Nest(q, FlowMappingValue, false, false)
    else if Sees(p, FlowMappingEnd) then Move(MappingEnd, Popped(Rest(p)))
    else Nest(p, FlowMappingEmptyValue, false, false)
  }

  function FlowValueMove(p: Parsing, empty: bool): Move {
    if p.tokens == [] then Stuck
    else if empty || p.tokens[0] != Value then Omit(p, FlowMappingKey)
    else
      var q := Rest(p);
      if q.tokens == [] then Stuck
      else if Sees(q, FlowEntry) || Sees(q, FlowMappingEnd) then Omit(q, FlowMappingKey)
      else Nest(q, FlowMappingKey, false, false)
  }

  predicate EndsDocument(t: Token) {
    t.VersionDirective? || t.TagDirective? || t == DocumentStartToken || t == DocumentEndToken || t == StreamEndToken
  }

  function BodyMove(p: Parsing): Move {
    if p.tokens == [] then Stuck
    else if EndsDocument(p.tokens[0]) then Move(Scalar(None, None, ""), Popped(p))
    else NodeMove(p, true, false)
  }

  function FinishMove(p: Parsing): Move {
    if p.tokens == [] then Stuck
    else
      var q := if p.tokens[0] == DocumentEndToken then Rest(p) else p;
      Move(DocumentEnd, q.(state := AtDocument, directives := []))
  }

  /** The first time, the token that starts the collection is skipped. */
  function Entered(p: Parsing, first: bool, entry: State): Parsing {
    if first then Rest(p).(state := entry) else p
  }

  /** The states inside a document. */
  function InsideMove(p: Parsing): Move {
    match p.state
    case DocumentContent => BodyMove(p)
    case AtDocumentEnd => FinishMove(p)
    case BlockNode => NodeMove(p, true, false)
    case BlockNodeOrIndentless => NodeMove(p, true, true)
    case FlowNode => NodeMove(p, false, false)
    case BlockSequenceFirst => BlockSequenceMove(Entered(p, true, BlockSequenceEntry))
    case BlockSequenceEntry => BlockSequenceMove(Entered(p, false, BlockSequenceEntry))
    case IndentlessEntry => IndentlessMove(p)
    case BlockMappingFirst => BlockKeyMove(Entered(p, true, BlockMappingKey))
    case BlockMappingKey => BlockKeyMove(Entered(p, false, BlockMappingKey))
    case BlockMappingValue => BlockValueMove(p)
    case FlowSequenceFirst => FlowSequenceMove(Entered(p, true, FlowSequenceEntry), true)
    case FlowSequenceEntry => FlowSequenceMove(Entered(p, false, FlowSequenceEntry), false)
    case EntryMappingKey => EntryKeyMove(p)
    case EntryMappingValue => EntryValueMove(p)
    case EntryMappingEnd => EntryEndMove(p)
    case FlowMappingFirst => FlowKeyMove(Entered(p, true, FlowMappingKey), true)
    case FlowMappingKey => FlowKeyMove(Entered(p, false, FlowMappingKey), false)
    case FlowMappingValue => FlowValueMove(p, false)
    case FlowMappingEmptyValue => FlowValueMove(p, true)
    case _ => Stuck
  }

  /** What a call does when it follows a move. */
  predicate Follows(m: Move, ok: bool, e: Event, now: Parsing) {
    ok == m.Move? && (ok ==> e == m.e && now == m.next)
  }

  // ---------- between documents ----------

  function Known(ds: seq<Directive>, d: Directive): seq<Directive> {
    if FindHandle(ds, d.handle) < |ds| then ds else ds + [d]
  }

  /** The directives in front of a document: at most one version, 1.1 or 1.2, no handle
      twice; then the two default handles. */
  function Directives(p: Parsing, version: bool): Option<Parsing>
    decreases |p.tokens|
  {
    if p.tokens == [] then None
    else
      var t := p.tokens[0];
      if t.VersionDirective? then
        if version || t.major != 1 || (t.minor != 1 && t.minor != 2) then None else Directives(Rest(p), true)
      else if t.TagDirective? then
        var d := Directive(t.handle, t.prefix);
        if FindHandle(p.directives, d.handle) < |p.directives| then None
        else Directives(Rest(p).(directives := p.directives + [d]), version)
      else
        Some(p.(directives := Known(Known(p.directives, Directive("!", "!")), Directive("!!", "tag:yaml.org,2002:"))))
  }

  function SkipEnds(ts: seq<Token>): seq<Token> {
    if ts != [] && ts[0] == DocumentEndToken then SkipEnds(ts[1..]) else ts
  }

  datatype StreamMove = Halted | Moved(e: StreamEvent, next: Parsing)

  function DocumentMove(p0: Parsing, implicit: bool): StreamMove {
    var p := if implicit then p0 else p0.(tokens := SkipEnds(p0.tokens));
    if p.tokens == [] then Halted
    else if p.tokens[0] == StreamEndToken then Moved(StreamEnd, Rest(p).(state := AtEnd))
    else
      var t := p.tokens[0];
      OpenMove(p, implicit && !t.VersionDirective? && !t.TagDirective? && t != DocumentStartToken)
  }

  /** A document that is bare has no line to start it. */
  function OpenMove(p: Parsing, bare: bool): StreamMove {
    var d := Directives(p, false);
    if d.None? then Halted
    else
      var q := d.value.(states := p.states + [AtDocumentEnd]);
      if bare then Moved(DocumentStart, q.(state := BlockNode))
      else if !Sees(q, DocumentStartToken) then Halted
      else Moved(DocumentStart, Rest(q).(state := DocumentContent))
  }

  function Next(p: Parsing): StreamMove {
    match p.state
    case AtStreamStart =>
      if Sees(p, StreamStartToken) then Moved(StreamStart, Rest(p).(state := AtImplicitDocument)) else Halted
    case AtImplicitDocument => DocumentMove(p, true)
    case AtDocument => DocumentMove(p, false)
    case _ =>
      match InsideMove(p)
      case Stuck => Halted
      case Move(e, q) => Moved(InDocument(e), q)
  }

  // ---------- how long the parser goes on ----------

  /** The calls that a state may take without a token being read. */
  function Credit(s: State): nat {
    match s
    case AtStreamStart => 0
    case AtEnd => 0
    case AtImplicitDocument => 5
    case EntryMappingKey => 5
    case EntryMappingValue => 3
    case EntryMappingEnd => 2
    case AtDocumentEnd => 2
    case DocumentContent => 2
    case BlockNode => 2
    case BlockNodeOrIndentless => 2
    case FlowNode => 2
    case BlockMappingValue => 2
    case FlowMappingValue => 2
    case FlowMappingEmptyValue => 2
    case _ => 1
  }

  function CreditAll(states: seq<State>): nat {
    if states == [] then 0 else CreditAll(states[..|states| - 1]) + Credit(states[|states| - 1])
  }

  /** At least as many as the calls that are still to come. */
  function Budget(p: Parsing): nat {
    6 * |p.tokens| + Credit(p.state) + CreditAll(p.states)
  }

  lemma {:induction false} PoppedBudget(p: Parsing)
    ensures Budget(Popped(p)) + Credit(p.state) == Budget(p) && Popped(p).tokens == p.tokens
  {
  }

  lemma {:induction false} PushedBudget(p: Parsing, next: State)
    ensures Budget(p.(states := p.states + [next])) == Budget(p) + Credit(next)
  {
    assert (p.states + [next])[..|p.states|] == p.states;
  }

  /** A move reads on, and costs the credit `cost`. */
  predicate Costs(m: Move, p: Parsing, cost: int) {
    m.Move? ==> |m.next.tokens| <= |p.tokens| && Budget(m.next) + cost <= Budget(p)
  }

  lemma {:induction false} ContentCosts(p: Parsing, anchor: Option<string>, tag: Option<string>, block: bool,
                                        indentless: bool)
    ensures Costs(ContentMove(p, anchor, tag, block, indentless), p, Credit(p.state) - 1)
  {
    hide CreditAll;
    PoppedBudget(p);
    PoppedBudget(Rest(p));
  }

  lemma {:induction false} NodeCosts(p: Parsing, block: bool, indentless: bool)
    ensures Costs(NodeMove(p, block, indentless), p, Credit(p.state) - 1)
  {
    hide CreditAll, ContentMove, Popped;
    PoppedBudget(Rest(p));
    var props := ReadProps(p.tokens);
    var tag := ResolveTag(p.directives, props);
    if tag.Some? {
      ContentCosts(p.(tokens := p.tokens[props.count..]), props.anchor, tag.value, block, indentless);
    }
  }

  lemma {:induction false} NestCosts(p: Parsing, next: State, block: bool, indentless: bool)
    ensures Costs(Nest(p, next, block, indentless), p, Credit(p.state) - 1 - Credit(next))
  {
    hide CreditAll, NodeMove, Credit;
    PushedBudget(p, next);
    NodeCosts(p.(states := p.states + [next]), block, indentless);
  }

  lemma {:induction false} BlockCosts(p: Parsing)
    ensures Costs(BlockSequenceMove(p), p, 1) || p.state != BlockSequenceEntry
    ensures Costs(IndentlessMove(p), p, 1) || p.state != IndentlessEntry
    ensures Costs(BlockKeyMove(p), p, 1) || p.state != BlockMappingKey
    ensures Costs(BlockValueMove(p), p, 1) || p.state != BlockMappingValue
  {
    hide CreditAll, Nest, Popped;
    PoppedBudget(p);
    PoppedBudget(Rest(p));
    NestCosts(Rest(p), BlockSequenceEntry, true, false);
    NestCosts(Rest(p), IndentlessEntry, true, false);
    NestCosts(Rest(p), BlockMappingValue, true, true);
    NestCosts(Rest(p), BlockMappingKey, true, true);
  }

  lemma {:induction false} ItemCosts(p: Parsing)
    requires p.state == FlowSequenceEntry
    ensures Costs(FlowItemMove(p), p, -1) && (Sees(p, FlowSequenceEnd) ==> Costs(FlowItemMove(p), p, 1))
  {
    hide CreditAll, Nest, Popped;
    PoppedBudget(Rest(p));
    NestCosts(p, FlowSequenceEntry, false, false);
  }

  lemma {:induction false} EntryCosts(p: Parsing)
    ensures Costs(EntryKeyMove(p), p, 1) || p.state != EntryMappingKey
    ensures Costs(EntryValueMove(p), p, 1) || p.state != EntryMappingValue
    ensures Costs(EntryEndMove(p), p, 1) || p.state != EntryMappingEnd
  {
    hide CreditAll, Nest, Popped;
    NestCosts(p, EntryMappingValue, false, false);
    NestCosts(Rest(p), EntryMappingEnd, false, false);
  }

  lemma {:induction false} PairCosts(p: Parsing)
    requires p.state == FlowMappingKey
    ensures Costs(FlowPairMove(p), p, -2) && (Sees(p, FlowMappingEnd) ==> Costs(FlowPairMove(p), p, 1))
  {
    hide CreditAll, Nest, Popped;
    PoppedBudget(Rest(p));
    NestCosts(p, FlowMappingEmptyValue, false, false);
    NestCosts(Rest(p), FlowMappingValue, false, false);
  }

  lemma {:induction false} FlowValueCosts(p: Parsing, empty: bool)
    requires p.state == FlowMappingValue || p.state == FlowMappingEmptyValue
    ensures Costs(FlowValueMove(p, empty), p, 1)
  {
    hide CreditAll, Nest, Popped;
    NestCosts(Rest(p), FlowMappingKey, false, false);
  }

  lemma {:induction false} FlowCosts(p: Parsing)
    ensures Costs(FlowSequenceMove(p, false), p, 1) || p.state != FlowSequenceEntry
    ensures Costs(FlowSequenceMove(p, true), p, -1) || p.state != FlowSequenceEntry
    ensures Costs(FlowKeyMove(p, false), p, 1) || p.state != FlowMappingKey
    ensures Costs(FlowKeyMove(p, true), p, -2) || p.state != FlowMappingKey
  {
    hide CreditAll, FlowItemMove, FlowPairMove;
    if p.state == FlowSequenceEntry {
      ItemCosts(p);
      ItemCosts(Rest(p));
    }
    if p.state == FlowMappingKey {
      PairCosts(p);
      PairCosts(Rest(p));
    }
  }

  lemma {:induction false} EdgeCosts(p: Parsing)
    ensures Costs(BodyMove(p), p, 1) || p.state != DocumentContent
    ensures Costs(FinishMove(p), p, 1) || p.state != AtDocumentEnd
  {
    hide CreditAll, NodeMove, Popped;
    PoppedBudget(p);
    NodeCosts(p, true, false);
  }

  /** The token that starts a collection pays for its first state. */
  lemma {:induction false} EnteredBudget(p: Parsing, entry: State)
    requires p.tokens != [] && Credit(p.state) == 1 && Credit(entry) == 1
    ensures Budget(Entered(p, true, entry)) + 6 == Budget(p) && |Entered(p, true, entry).tokens| < |p.tokens|
  {
  }

  lemma {:induction false} InsideCosts(p: Parsing)
    ensures Costs(InsideMove(p), p, 1)
  {
    hide Budget, CreditAll, BodyMove, FinishMove, NodeMove, BlockSequenceMove, IndentlessMove, BlockKeyMove,
         BlockValueMove, FlowSequenceMove, EntryKeyMove, EntryValueMove, EntryEndMove, FlowKeyMove, FlowValueMove;
    EdgeCosts(p);
    BlockCosts(p);
    EntryCosts(p);
    FlowCosts(p);
    match p.state
    case BlockNode => NodeCosts(p, true, false);
    case BlockNodeOrIndentless => NodeCosts(p, true, true);
    case FlowNode => NodeCosts(p, false, false);
    case BlockSequenceFirst => FirstCosts(p, BlockSequenceEntry);
    case BlockMappingFirst => FirstCosts(p, BlockMappingKey);
    case FlowSequenceFirst => FirstCosts(p, FlowSequenceEntry);
    case FlowMappingFirst => FirstCosts(p, FlowMappingKey);
    case FlowMappingValue => FlowValueCosts(p, false);
    case FlowMappingEmptyValue => FlowValueCosts(p, true);
    case _ =>
  }

  lemma {:induction false} FirstCosts(p: Parsing, entry: State)
    requires Credit(p.state) == 1 && Credit(entry) == 1
    ensures var q := Entered(p, true, entry);
      && (entry == BlockSequenceEntry ==> Costs(BlockSequenceMove(q), p, 1))
      && (entry == BlockMappingKey ==> Costs(BlockKeyMove(q), p, 1))
      && (entry == FlowSequenceEntry ==> Costs(FlowSequenceMove(q, true), p, 1))
      && (entry == FlowMappingKey ==> Costs(FlowKeyMove(q, true), p, 1))
  {
    hide Budget, CreditAll, BlockSequenceMove, BlockKeyMove, FlowItemMove, FlowPairMove;
    var q := Entered(p, true, entry);
    BlockCosts(q);
    FlowCosts(q);
    if p.tokens == [] {
      NothingLeft(q);
    } else {
      EnteredBudget(p, entry);
    }
  }

  lemma {:induction false} NothingLeft(q: Parsing)
    requires q.tokens == []
    ensures BlockSequenceMove(q) == Stuck && BlockKeyMove(q) == Stuck
    ensures FlowSequenceMove(q, true) == Stuck && FlowKeyMove(q, true) == Stuck
  {
  }

  lemma {:induction false} DirectivesRead(p: Parsing, version: bool)
    ensures var d := Directives(p, version);
      d.Some? ==> d.value.state == p.state && d.value.states == p.states && |d.value.tokens| <= |p.tokens|
    decreases |p.tokens|
  {
    if p.tokens != [] {
      var t := p.tokens[0];
      if t.VersionDirective? {
        DirectivesRead(Rest(p), true);
      } else if t.TagDirective? {
        DirectivesRead(Rest(p).(directives := p.directives + [Directive(t.handle, t.prefix)]), version);
      }
    }
  }

  lemma {:induction false} EndsRead(ts: seq<Token>)
    ensures |SkipEnds(ts)| <= |ts|
  {
    if ts != [] && ts[0] == DocumentEndToken {
      EndsRead(ts[1..]);
    }
  }

  lemma {:induction false} OpenCosts(p: Parsing, bare: bool)
    requires p.state == AtImplicitDocument || (p.state == AtDocument && !bare)
    ensures var m := OpenMove(p, bare); m.Moved? ==> Budget(m.next) < Budget(p)
  {
    hide Directives, CreditAll;
    DirectivesRead(p, false);
    var d := Directives(p, false);
    if d.Some? {
      PushedBudget(d.value, AtDocumentEnd);
    }
  }

  /** Every call that delivers an event uses up some of the budget. */
  lemma {:induction false} NextCosts(p: Parsing)
    ensures Next(p).Moved? ==> Budget(Next(p).next) < Budget(p)
  {
    hide InsideMove, OpenMove, CreditAll, SkipEnds;
    InsideCosts(p);
    if p.state == AtImplicitDocument || p.state == AtDocument {
      EndsRead(p.tokens);
      var q := if p.state == AtImplicitDocument then p else p.(tokens := SkipEnds(p.tokens));
      OpenCosts(q, false);
      if p.state == AtImplicitDocument {
        OpenCosts(q, true);
      }
    }
  }

  datatype Outcome = Outcome(events: seq<StreamEvent>, failed: bool)

  /** What all the calls deliver together. */
  function Calls(p: Parsing): Outcome
    decreases Budget(p)
  {
    if p.state == AtEnd then Outcome([], false)
    else
      match Next(p)
      case Halted => Outcome([], true)
      case Moved(e, q) =>
        NextCosts(p);
        var rest := Calls(q);
        Outcome([e] + rest.events, rest.failed)
  }

  lemma {:induction false} CallsStep(p: Parsing)
    ensures p.state == AtEnd ==> Calls(p) == Outcome([], false)
    ensures p.state != AtEnd ==>
      var m := Next(p);
      Calls(p) == if m.Halted? then Outcome([], true)
                  else Outcome([m.e] + Calls(m.next).events, Calls(m.next).failed)
  {
    hide Next, Budget;
    NextCosts(p);
  }

  /** There are never more than six events for a token. */
  lemma {:induction false} EventBound(p: Parsing)
    ensures |Calls(p).events| <= Budget(p)
    decreases Budget(p)
  {
    hide Next, Calls, Budget;
    CallsStep(p);
    if p.state != AtEnd && Next(p).Moved? {
      NextCosts(p);
      EventBound(Next(p).next);
    }
  }

  lemma {:induction false} OneEarlier(a: seq<StreamEvent>, e: StreamEvent, b: seq<StreamEvent>)
    ensures a + [e] + b == a + ([e] + b)
  {
  }
}
