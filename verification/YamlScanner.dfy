/** The token queue of scanner.c: simple keys are recognised only at the ':' after them, so
    a KEY, and the start of its mapping, is put into the queue before tokens already there. */
module YamlScanner {
  import opened Basics
  import opened YamlNodes
  import opened YamlStates
  import opened YamlTokens
  import opened YamlLayout

  const INT_MAX := 0x7FFF_FFFF

  /** What reading the text of one token answers: the strings in it and how far it reaches,
      at least one character. `leading` tells that a plain scalar ended after a line break. */
  datatype Answer =
    | Refused
    | Read(first: string, second: string, version: Option<(int, int)>,
           count: nat, lines: nat, column: nat, leading: bool)

  function After(m: Mark, a: Answer): (r: Mark)
    requires a.Read?
    ensures Before(m, r)
  {
    if a.lines == 0 then Mark(m.index + 1 + a.count, m.line, m.column + 1 + a.count)
    else Mark(m.index + 1 + a.count, m.line + a.lines, a.column)
  }

  /** A simple key stays on one line and within 1024 characters. */
  predicate Stale(k: SimpleKey, mark: Mark) {
    k.possible && (k.mark.line < mark.line || k.mark.index + 1024 < mark.index)
  }

  function Aged(k: SimpleKey, mark: Mark): SimpleKey {
    if Stale(k, mark) then k.(possible := false) else k
  }

  /** Every possible key can still be completed here. */
  ghost predicate InReach(ks: seq<SimpleKey>, mark: Mark) {
    forall i :: 0 <= i < |ks| ==> !Stale(ks[i], mark)
  }

  /** The first levels, with every deeper one past the column. */
  ghost predicate Kept(ls: seq<int>, some: seq<int>, column: int) {
    some <= ls && forall i :: |some| <= i < |ls| ==> column < ls[i]
  }

  lemma {:induction false} KeptAll(ls: seq<int>, column: int)
    ensures Kept(ls, ls, column)
  {
  }

  lemma {:induction false} KeptPop(ls: seq<int>, indents: seq<int>, indent: int, column: int)
    requires Kept(ls, indents + [indent], column) && column < indent
    ensures Kept(ls, indents, column)
  {
    assert ls[|indents|] == (indents + [indent])[|indents|];
    assert indents <= indents + [indent];
  }

  datatype TextKind = AliasText | AnchorText | TagText | QuotedText | PlainText

  function TextToken(kind: TextKind, a: Answer): (t: Token)
    requires a.Read?
    ensures StartsKey(t) && t != FlowSequenceStart && t != FlowMappingStart
  {
    match kind
    case AliasText => AliasToken(a.first)
    case AnchorText => Anchor(a.first)
    case TagText => Tag(a.first, a.second)
    case QuotedText => ScalarToken(a.first)
    case PlainText => ScalarToken(a.first)
  }

  /** A text of this kind may begin here. */
  predicate CalledFor(text: string, m: Mark, kind: TextKind, flow: bool) {
    var c, second := CharAt(text, m.index), CharAt(text, m.index + 1);
    match kind
    case AliasText => c == '*'
    case AnchorText => c == '&'
    case TagText => c == '!'
    case QuotedText => (c == '\'' || c == '"') && !Marker(text, m)
    case PlainText => ScalarStart(c, second, flow) && !Marker(text, m)
  }

  lemma {:induction false} TextFine(text: string, m: Mark, kind: TextKind, a: Answer, open: seq<int>, flow: bool)
    requires a.Read? && CalledFor(text, m, kind, flow) && (flow || Top(open) <= m.column)
    ensures Fine(text, Lexeme(TextToken(kind, a), m, After(m, a)), open, flow)
  {
  }

  function DirectiveToken(a: Answer): Token
    requires a.Read?
  {
    if a.version.Some? then VersionDirective(a.version.value.0, a.version.value.1) else TagDirective(a.first, a.second)
  }

  /** What goes into the queue for a simple key. */
  function Inserted(opens: bool, at: Mark): seq<Lexeme> {
    if opens then [Mere(BlockMappingStart, at), Mere(Key, at)] else [Mere(Key, at)]
  }

  lemma {:induction false} Enqueued(delivered: seq<Lexeme>, tokens: seq<Lexeme>, t: Lexeme)
    ensures delivered + (tokens + [t]) == delivered + tokens + [t]
    ensures Ended(delivered + tokens + [t]) == (t.token == StreamEndToken)
  {
  }

  lemma {:induction false} Dequeued(delivered: seq<Lexeme>, tokens: seq<Lexeme>)
    requires tokens != []
    ensures delivered + [tokens[0]] + tokens[1..] == delivered + tokens
    ensures Ended(delivered + [tokens[0]]) == (tokens[0].token == StreamEndToken)
  {
  }

  lemma {:induction false} SpliceQueue(delivered: seq<Lexeme>, tokens: seq<Lexeme>, n: nat, xs: seq<Lexeme>)
    requires n <= |tokens|
    ensures var all, m := delivered + tokens, |delivered| + n;
            delivered + (tokens[..n] + xs + tokens[n..]) == all[..m] + xs + all[m..]
  {
  }

  lemma {:induction false} SpliceTwice(tokens: seq<Lexeme>, n: nat, at: Mark)
    requires n <= |tokens|
    ensures var once := tokens[..n] + [Mere(Key, at)] + tokens[n..];
            once[..n] + [Mere(BlockMappingStart, at)] + once[n..] == tokens[..n] + Inserted(true, at) + tokens[n..]
  {
  }

  /** The queue after a simple key is recognised. */
  lemma {:induction false} KeyInserted(ks: seq<SimpleKey>, delivered: seq<Lexeme>, tokens: seq<Lexeme>, mark: Mark,
                                       depth: nat, opens: bool)
    requires ks != [] && ks[|ks| - 1].possible && Keys(ks, delivered + tokens, |delivered|, mark)
    requires Story(delivered + tokens, mark, depth) && !Ended(delivered + tokens)
    ensures var k := ks[|ks| - 1]; var n := k.number - |delivered|;
            0 <= n < |tokens| && tokens[n].start == k.mark &&
            var all := delivered + (tokens[..n] + Inserted(opens, k.mark) + tokens[n..]);
            Story(all, mark, if opens then depth + 1 else depth) && !Ended(all) &&
            Flow(all) == Flow(delivered + tokens) &&
            Keys(ks[|ks| - 1 := k.(possible := false)], all, |delivered|, mark)
  {
    hide Story, Keys, Flow, Ended;
    var all, k := delivered + tokens, ks[|ks| - 1];
    KeyToken(ks, all, |delivered|, mark);
    var n := k.number - |delivered|;
    var xs := Inserted(opens, k.mark);
    AtQueue(delivered, tokens, n);
    SpliceQueue(delivered, tokens, n, xs);
    StoryInsert(all, mark, depth, k.number, xs);
    KeysInsert(ks, all, |delivered|, mark, xs);
    FlowInsert(all, k.number, xs);
    SpliceEnd(all, k.number, xs);
  }

  lemma {:induction false} KeyToken(ks: seq<SimpleKey>, all: seq<Lexeme>, parsed: nat, mark: Mark)
    requires ks != [] && ks[|ks| - 1].possible && Keys(ks, all, parsed, mark)
    ensures var k := ks[|ks| - 1];
            parsed <= k.number < |all| && all[k.number].start == k.mark && StartsKey(all[k.number].token)
  {
    assert KeyOk(ks[|ks| - 1], all, parsed, mark);
  }

  /** What holds where a token may be fetched. */
  ghost predicate Whole(text: string, ks: seq<SimpleKey>, all: seq<Lexeme>, parsed: nat, indents: seq<int>, indent: int,
                        mark: Mark, level: nat)
  {
    && |ks| == level + 1 && Levels(indents, indent) && Story(all, mark, |indents|) && !Ended(all)
    && Flow(all) == level && Layout(text, all) && Bars(indents, indent, all) && KeyPlaces(ks, all, indent)
    && Keys(ks, all, parsed, mark) && all != [] && Gap(text, all[|all| - 1].end, mark)
    && (level == 0 ==> indent <= mark.column)
  }

  /** The same holds after a simple key is recognised. */
  lemma {:induction false} KeyWhole(text: string, ks: seq<SimpleKey>, delivered: seq<Lexeme>, tokens: seq<Lexeme>,
                                    indents: seq<int>, indent: int, mark: Mark, level: nat)
    requires Whole(text, ks, delivered + tokens, |delivered|, indents, indent, mark, level)
    requires |ks| == level + 1 && InReach(ks, mark) && ks[level].possible
    ensures var k := ks[level]; var n := k.number - |delivered|;
      var opens := level == 0 && indent < k.mark.column;
      0 <= n < |tokens| && tokens[n].start == k.mark &&
      Whole(text, ks[level := k.(possible := false)],
            delivered + (tokens[..n] + Inserted(opens, k.mark) + tokens[n..]), |delivered|,
            if opens then indents + [indent] else indents, if opens then k.mark.column else indent, mark, level)
  {
    hide Story, Keys, Levels, Flow, Ended, Layout, Bars, KeyPlaces, Gap, InReach, Inserted;
    var opens := level == 0 && indent < ks[level].mark.column;
    KeyInserted(ks, delivered, tokens, mark, |indents|, opens);
    StoryOrder(delivered + tokens, mark, |indents|);
    KeyLaid(text, ks, delivered, tokens, indents, indent, mark, opens);
    if opens {
      LevelsPush(indents, indent, ks[level].mark.column);
    }
  }

  lemma {:induction false} AtQueue(delivered: seq<Lexeme>, tokens: seq<Lexeme>, n: nat)
    requires n < |tokens|
    ensures (delivered + tokens)[|delivered| + n] == tokens[n]
  {
  }

  lemma {:induction false} SpliceEnd(all: seq<Lexeme>, m: nat, xs: seq<Lexeme>)
    requires m < |all|
    ensures Ended(all[..m] + xs + all[m..]) == Ended(all)
  {
  }

  class Scanner {
    const text: string
    /** What the readers of directives, anchors, tags and scalars will answer. */
    var answers: seq<Answer>
    var mark: Mark
    var tokens: seq<Lexeme>
    var tokensParsed: nat
    var tokenAvailable: bool
    var simpleKeys: seq<SimpleKey>
    var simpleKeyAllowed: bool
    var flowLevel: nat
    var indent: int
    var indents: seq<int>
    var streamStartProduced: bool
    var streamEndProduced: bool
    var error: bool
    /** The tokens that have left the queue. */
    ghost var delivered: seq<Lexeme>

    ghost function All(): seq<Lexeme>
      reads this`delivered, this`tokens
    {
      delivered + tokens
    }

    ghost predicate Inv()
      reads this
    {
      streamStartProduced && |delivered| == tokensParsed && |simpleKeys| == flowLevel + 1 &&
      Levels(indents, indent) && Story(All(), mark, |indents|) && Flow(All()) == flowLevel &&
      Keys(simpleKeys, All(), tokensParsed, mark) && Layout(text, All()) && Bars(indents, indent, All())
    }

    /** The possible keys are where their levels say. */
    ghost predicate Spotted()
      reads this
    {
      KeyPlaces(simpleKeys, All(), indent)
    }

    /** The scanner stands behind the last token. */
    ghost predicate Abreast()
      reads this
    {
      All() != [] && All()[|All()| - 1].end == mark
    }

    /** The scanner stands where the next token may begin. */
    ghost predicate Ready()
      reads this`delivered, this`tokens, this`mark
    {
      All() != [] && Gap(text, All()[|All()| - 1].end, mark)
    }

    /** Outside the flow collections, not before the column of the innermost collection. */
    predicate Aligned()
      reads this
    {
      flowLevel == 0 ==> indent <= mark.column
    }

    /** A token may be fetched here. */
    ghost predicate Poised()
      reads this
    {
      Going() && Spotted() && Ready() && Aligned()
    }

    /** As Poised, with these keys on this flow level. */
    ghost predicate Saving(ks: seq<SimpleKey>, level: nat)
      reads this`streamStartProduced, this`delivered, this`tokens, this`tokensParsed, this`mark, this`indents,
            this`indent
    {
      streamStartProduced && |delivered| == tokensParsed &&
      Whole(text, ks, All(), tokensParsed, indents, indent, mark, level)
    }

    lemma {:induction false} SavesHere()
      ensures Poised() <==> Saving(simpleKeys, flowLevel)
      ensures Poised() ==>
        && streamStartProduced && |delivered| == tokensParsed && |simpleKeys| == flowLevel + 1 && !Ended(All())
        && Flow(All()) == flowLevel && Top(Columns(All())) == indent && (flowLevel == 0 ==> indent <= mark.column)
    {
      hide Story, Keys, Levels, Flow, Ended, Layout, Bars, KeyPlaces, Gap, Columns;
      if Poised() {
        BarsTop(indents, indent, All());
      }
    }

    /** A token was fetched. */
    ghost predicate Fetched()
      reads this
    {
      Going() && Spotted() && Abreast()
    }

    /** Inv, and the stream has not ended. */
    ghost predicate Going()
      reads this
    {
      Inv() && !Ended(All())
    }

    ghost predicate Valid()
      reads this
    {
      |delivered| == tokensParsed &&
      (if streamStartProduced then
         Inv() && Finished() && Spotted() && Abreast()
       else
         tokens == [] && delivered == [] && simpleKeys == [] && flowLevel == 0 && indents == [] &&
         mark == Mark(0, 0, 0)) &&
      (tokenAvailable ==> tokens != [] && Clear(simpleKeys, tokensParsed)) &&
      streamEndProduced == Ended(delivered)
    }

    /** Once the stream has ended, no key can be completed, and no block collection is open
        outside the flow collections. */
    ghost predicate Finished()
      reads this
    {
      Ended(All()) ==> AllBehind(simpleKeys, mark) && (flowLevel == 0 ==> indents == [])
    }

    /** Bounds the tokens that can still be fetched. */
    ghost function Remaining(): nat
      reads this
    {
      if Ended(All()) then 0
      else 1 + (if mark.index < |text| then |text| - mark.index else 0) + (if streamStartProduced then 0 else 1)
    }

    constructor (text: string, answers: seq<Answer>)
      ensures Valid() && delivered == [] && !error && this.text == text
    {
      this.text, this.answers, mark, tokens, tokensParsed, tokenAvailable := text, answers, Mark(0, 0, 0), [], 0, false;
      simpleKeys, simpleKeyAllowed, flowLevel, indent, indents := [], false, 0, 0, [];
      streamStartProduced, streamEndProduced, error, delivered := false, false, false, [];
    }

    method TakeAnswer() returns (a: Answer)
      modifies this`answers, this`error
      ensures a == if old(answers) == [] then Refused else old(answers)[0]
      ensures a.Refused? ==> error
      ensures a.Read? ==> error == old(error) && old(answers) != [] && a == old(answers)[0]
    {
      if answers == [] {
        a := Refused;
      } else {
        a, answers := answers[0], answers[1..];
      }
      if a.Refused? {
        error := true;
      }
    }

    // ---------- simple keys ----------

    /** Fails just when a key that is required can no longer be completed. */
    method StaleSimpleKeys() returns (ok: bool)
      modifies this`simpleKeys, this`error
      ensures ok <==> forall i :: 0 <= i < |old(simpleKeys)| && Stale(old(simpleKeys)[i], mark) ==>
        !old(simpleKeys)[i].required
      ensures ok ==> error == old(error) && |simpleKeys| == |old(simpleKeys)|
      ensures ok ==> forall i :: 0 <= i < |simpleKeys| ==> simpleKeys[i] == Aged(old(simpleKeys)[i], mark)
    {
      ghost var was := simpleKeys;
      var i := 0;
      while i < |simpleKeys|
        invariant i <= |simpleKeys| == |was| && error == old(error)
        invariant forall j :: 0 <= j < i ==>
          simpleKeys[j] == Aged(was[j], mark) && (Stale(was[j], mark) ==> !was[j].required)
        invariant forall j :: i <= j < |was| ==> simpleKeys[j] == was[j]
      {
        var k := simpleKeys[i];
        if k.possible && (k.mark.line < mark.line || k.mark.index + 1024 < mark.index) {
          if k.required {
            assert Stale(was[i], mark);
            error := true;
            return false;
          }
          simpleKeys := simpleKeys[i := k.(possible := false)];
        }
        i := i + 1;
      }
      ok := true;
    }

    method RemoveSimpleKey() returns (ok: bool)
      requires simpleKeys != []
      modifies this`simpleKeys, this`error
      ensures var n := |old(simpleKeys)| - 1; var k := old(simpleKeys)[n];
              ok == !(k.possible && k.required) &&
              (ok ==> error == old(error) && simpleKeys == old(simpleKeys)[n := k.(possible := false)])
      ensures ok && old(Going()) ==> Going()
      ensures ok && old(Spotted()) ==> Spotted()
    {
      hide Story, Levels, Flow, Layout, Bars, KeyPlaces;
      ghost var was := simpleKeys;
      var n := |simpleKeys| - 1;
      if simpleKeys[n].possible && simpleKeys[n].required {
        error := true;
        return false;
      }
      simpleKeys := simpleKeys[n := simpleKeys[n].(possible := false)];
      ok := true;
      if old(Going()) {
        KeysFewer(was, simpleKeys, All(), tokensParsed, mark);
      }
      if old(Spotted()) {
        PlacesFewer(was, simpleKeys, All(), indent);
      }
    }

    /** A key is required on the innermost level, and not completed. */
    predicate Blocked()
      requires simpleKeys != []
      reads this
    {
      simpleKeys[|simpleKeys| - 1].possible && simpleKeys[|simpleKeys| - 1].required
    }

    /** A level that an int cannot hold. */
    predicate TooDeep(column: nat)
      reads this
    {
      indent < column && INT_MAX < column
    }

    /** The key that may begin at the next token, if one may. */
    ghost function Saved(): SimpleKey
      requires simpleKeys != []
      reads this
    {
      if simpleKeyAllowed
      then SimpleKey(true, flowLevel == 0 && indent == mark.column, tokensParsed + |tokens|, mark)
      else simpleKeys[|simpleKeys| - 1]
    }

    method SaveSimpleKey() returns (ok: bool)
      requires simpleKeys != []
      modifies this`simpleKeys, this`error
      ensures ok == !(simpleKeyAllowed && old(Blocked()))
      ensures ok ==> error == old(error) && simpleKeys == old(simpleKeys)[|old(simpleKeys)| - 1 := old(Saved())]
    {
      var required := flowLevel == 0 && indent == mark.column;
      if simpleKeyAllowed {
        var k := SimpleKey(true, required, tokensParsed + |tokens|, mark);
        ok := RemoveSimpleKey();
        if !ok {
          return;
        }
        simpleKeys := simpleKeys[|simpleKeys| - 1 := k];
      }
      ok := true;
    }

    method IncreaseFlowLevel() returns (ok: bool)
      modifies this`simpleKeys, this`flowLevel, this`error
      ensures ok == (old(flowLevel) != INT_MAX)
      ensures ok ==> error == old(error) && simpleKeys == old(simpleKeys) + [NO_KEY] && flowLevel == old(flowLevel) + 1
    {
      simpleKeys := simpleKeys + [NO_KEY];
      if flowLevel == INT_MAX {
        error := true;
        return false;
      }
      flowLevel := flowLevel + 1;
      ok := true;
    }

    method DecreaseFlowLevel()
      requires |simpleKeys| == flowLevel + 1
      modifies this`simpleKeys, this`flowLevel
      ensures |simpleKeys| == flowLevel + 1 && flowLevel == (if old(flowLevel) == 0 then 0 else old(flowLevel) - 1)
      ensures simpleKeys == old(simpleKeys)[..flowLevel + 1]
    {
      if flowLevel != 0 {
        flowLevel := flowLevel - 1;
        simpleKeys := simpleKeys[..|simpleKeys| - 1];
      }
    }

    // ---------- indentation ----------

    /** Opens a block collection when the column is deeper than the current level: its start
        goes to the end of the queue, or before the token with the given number. */
    method RollIndent(column: nat, number: Option<nat>, token: Token, at: Mark) returns (ok: bool)
      requires number.Some? ==> tokensParsed <= number.value <= tokensParsed + |tokens|
      modifies this`indent, this`indents, this`tokens, this`error
      ensures ok == !(flowLevel == 0 && old(indent) < column && INT_MAX < column)
      ensures ok ==> error == old(error)
      ensures ok ==>
        if flowLevel == 0 && old(indent) < column then
          var n := if number.Some? then number.value - tokensParsed else |old(tokens)|;
          indents == old(indents) + [old(indent)] && indent == column &&
          tokens == old(tokens)[..n] + [Mere(token, at)] + old(tokens)[n..]
        else
          indents == old(indents) && indent == old(indent) && tokens == old(tokens)
    {
      if flowLevel != 0 {
        return true;
      }
      if indent < column {
        indents := indents + [indent];
        if column > INT_MAX {
          error := true;
          return false;
        }
        indent := column;
        if number.None? {
          tokens := tokens + [Mere(token, at)];
        } else {
          var n := number.value - tokensParsed;
          tokens := tokens[..n] + [Mere(token, at)] + tokens[n..];
        }
      }
      ok := true;
    }

    /** A block collection may end here: at this column, or where the document ends. */
    predicate Closes(column: int)
      reads this
    {
      column == mark.column || CharAt(text, mark.index) == '\0' || Marker(text, mark)
    }

    /** Closes exactly the levels deeper than the column, one BLOCK-END each; the level
        outside every collection is never popped. */
    method UnrollIndent(column: int)
      requires Going() && Ready() && -1 <= column && Closes(column)
      modifies this`indent, this`indents, this`tokens
      ensures Going() && Ready() && old(tokens) <= tokens
      ensures flowLevel != 0 || old(indent) <= column ==>
        indents == old(indents) && indent == old(indent) && tokens == old(tokens)
      ensures flowLevel == 0 ==> indent <= column
      ensures |indents| <= |old(indents)| && |tokens| - |old(tokens)| == |old(indents)| - |indents|
      ensures Kept(old(indents) + [old(indent)], indents + [indent], column)
      ensures forall i :: |old(tokens)| <= i < |tokens| ==> tokens[i] == Mere(BlockEnd, mark)
    {
      hide Story, Keys, Levels, Kept, Flow, Ended, Layout, Bars, Gap, Marker;
      assert Kept(indents + [indent], indents + [indent], column) by {
        KeptAll(indents + [indent], column);
      }
      if flowLevel != 0 {
        return;
      }
      ghost var ls := indents + [indent];
      while indent > column
        invariant Going() && Ready() && old(tokens) <= tokens && |indents| <= |old(indents)|
        invariant |tokens| - |old(tokens)| == |old(indents)| - |indents|
        invariant Kept(ls, indents + [indent], column)
        invariant forall i :: |old(tokens)| <= i < |tokens| ==> tokens[i] == Mere(BlockEnd, mark)
        invariant old(indent) <= column ==> indents == old(indents) && indent == old(indent) && tokens == old(tokens)
        decreases |indents|
      {
        KeptPop(ls, indents, indent, column);
        CloseLevel(column);
      }
    }

    /** Ends the innermost block collection; there is one, as its level is above -1. */
    method CloseLevel(ghost column: int)
      requires Going() && Ready() && -1 <= column < indent && Closes(column) && flowLevel == 0
      modifies this`indent, this`indents, this`tokens
      ensures Going() && Ready() && tokens == old(tokens) + [Mere(BlockEnd, mark)] && indents + [indent] == old(indents)
    {
      hide Story, Keys, Levels, Flow, Ended, Layout, Bars, Gap, Marker;
      var t := Mere(BlockEnd, mark);
      LevelsPop(indents, indent);
      StoryAppend(All(), mark, |indents|, t, mark);
      KeysAppend(simpleKeys, All(), tokensParsed, mark, [t], mark);
      FlowAppend(All(), t);
      Enqueued(delivered, tokens, t);
      BarsTop(indents, indent, All());
      BarsClose(indents, indent, All(), t);
      EndFine(text, mark, Columns(All()), column);
      LayoutAppend(text, All(), t);
      GapAgain(text, All()[|All()| - 1].end, mark);
      LastOf(All(), t);
      tokens := tokens + [t];
      indent, indents := indents[|indents| - 1], indents[..|indents| - 1];
    }

    // ---------- fetching one token ----------

    method FetchStreamStart()
      requires Valid() && !streamStartProduced
      modifies this`tokens, this`simpleKeys, this`simpleKeyAllowed, this`indent, this`streamStartProduced
      ensures Fetched() && Remaining() < old(Remaining()) && tokens == [Mere(StreamStartToken, mark)]
      ensures simpleKeyAllowed && indent == -1 && simpleKeys == [NO_KEY]
    {
      hide Nested, Depth, Flow, Layout, Bars, KeyPlaces;
      var t := Mere(StreamStartToken, mark);
      indent := -1;
      simpleKeys := simpleKeys + [NO_KEY];
      simpleKeyAllowed := true;
      streamStartProduced := true;
      tokens := tokens + [t];
      assert All() == [] + [t] == [t];
      assert Nested([]) && Depth([]) == 0 && Flow([]) == 0 by {
        NothingYet();
      }
      NestedAppend([], t);
      FlowAppend([], t);
      FirstLayout(text);
      PlacesNone(simpleKeys, All(), indent);
    }

    /** Where the text ends, a new line begins unless it has just begun. */
    method ForceLine()
      requires Poised() && CharAt(text, mark.index) == '\0'
      modifies this`mark
      ensures Going() && Spotted() && Ready() && AllBehind(simpleKeys, mark)
      ensures mark == if old(mark).column != 0 then Mark(old(mark).index, old(mark).line + 1, 0) else old(mark)
    {
      hide Story, Keys, Levels, Flow, Ended, AllBehind, Layout, Bars;
      BehindEnd(simpleKeys, All(), tokensParsed, mark);
      if mark.column != 0 {
        var next := Mark(mark.index, mark.line + 1, 0);
        StoryMark(All(), mark, |indents|, next);
        KeysAppend(simpleKeys, All(), tokensParsed, mark, [], next);
        assert All() + [] == All();
        mark := next;
      }
    }

    /** Closes all levels, outside the flow collections, and gives up the innermost key. */
    method CloseAll() returns (ok: bool)
      requires Going() && Spotted() && Ready() && Closes(-1)
      modifies this`tokens, this`simpleKeys, this`simpleKeyAllowed, this`indent, this`indents, this`error
      ensures ok == !old(Blocked())
      ensures ok ==> Going() && Spotted() && Ready() && error == old(error)
      ensures ok ==> old(tokens) <= tokens && !simpleKeyAllowed
      ensures ok ==> !simpleKeys[flowLevel].possible && (flowLevel == 0 ==> indents == [] && Columns(All()) == [])
      ensures ok && old(AllBehind(simpleKeys, mark)) ==> AllBehind(simpleKeys, mark)
    {
      hide Story, Keys, Levels, Kept, Flow, Ended, AllBehind, Layout, Bars, KeyPlaces, Gap, Marker, Columns;
      UnrollIndent(-1);
      ghost var ks := simpleKeys;
      ok := RemoveSimpleKey();
      if !ok {
        return;
      }
      if AllBehind(ks, mark) {
        BehindFewer(ks, simpleKeys, mark);
      }
      simpleKeyAllowed := false;
      if flowLevel == 0 {
        LevelsBottom(indents, indent);
        BarsTop(indents, indent, All());
        PlacesNone(simpleKeys, All(), indent);
      }
    }

    /** Ends the stream, and leaves no key that could still be completed. */
    method FetchStreamEnd() returns (ok: bool)
      requires Poised() && CharAt(text, mark.index) == '\0'
      modifies this`mark, this`tokens, this`simpleKeys, this`simpleKeyAllowed, this`indent, this`indents, this`error
      ensures ok == !old(Blocked())
      ensures ok ==> Inv() && Ended(All()) && Finished() && Spotted() && Abreast() && error == old(error)
      ensures ok ==> !simpleKeyAllowed && tokens != [] && tokens[|tokens| - 1] == Mere(StreamEndToken, mark)
      ensures ok ==> mark.index == old(mark).index
      ensures ok ==> Answered(old(mark).index, flowLevel != 0)
    {
      hide Story, Keys, Levels, Kept, Flow, Ended, AllBehind, Layout, Bars, KeyPlaces, Gap, Marker, Answered, Fine;
      ForceLine();
      ok := CloseAll();
      if !ok {
        return;
      }
      EndStreamFine(text, mark, Columns(All()), flowLevel != 0);
      EndWith(StreamEndToken, mark);
    }

    /** The last token begins where the scanner stood, and its characters call for it. */
    ghost predicate Answered(at: nat, flow: bool)
      reads this
    {
      tokens != [] && var t := tokens[|tokens| - 1];
      t.start.index == at && Just(text, t, flow) && (t.start != t.end || t.token == StreamEndToken)
    }

    /** Queues a token that starts where the scanner stands and ends at `end`. */
    method EndWith(token: Token, end: Mark)
      requires streamStartProduced && |delivered| == tokensParsed && |simpleKeys| == flowLevel + 1
      requires Levels(indents, indent) && Layout(text, All()) && Bars(indents, indent, All())
      requires Story(All(), mark, |indents|) && !Ended(All()) && Keys(simpleKeys, All(), tokensParsed, mark)
      requires Flowed(Flow(All()), token) == flowLevel && Reaches(mark, end)
      requires !Opens(token) && token != BlockEnd && token != StreamStartToken
      requires Spotted() && Ready() && Fine(text, Lexeme(token, mark, end), Columns(All()), Flow(All()) != 0)
      requires (token == Key ==> mark != end) && (simpleKeys[0].possible ==> Quiet(token, Flow(All()) != 0))
      modifies this`tokens, this`mark
      ensures Inv() && Spotted() && Abreast() && mark == end && tokens == old(tokens) + [Lexeme(token, old(mark), end)]
      ensures Ended(All()) == (token == StreamEndToken)
      ensures Answered(old(mark).index, old(Flow(All())) != 0)
    {
      hide Story, Keys, Levels, Flow, Ended, Layout, Bars, KeyPlaces, Gap, Fine, Columns, Quiet, Just;
      var t := Lexeme(token, mark, end);
      StoryAppend(All(), mark, |indents|, t, end);
      KeysAppend(simpleKeys, All(), tokensParsed, mark, [t], end);
      FlowAppend(All(), t);
      Enqueued(delivered, tokens, t);
      LayoutAppend(text, All(), t);
      BarsSame(indents, indent, All(), t);
      PlacesAppend(simpleKeys, All(), indent, t);
      LastOf(All(), t);
      Calling(text, t, Columns(All()), Flow(All()) != 0);
      mark := end;
      tokens := tokens + [t];
    }

    /** Queues a token that a simple key may begin with; `ks` are the keys before it was saved. */
    method BeginWith(token: Token, end: Mark, ghost ks: seq<SimpleKey>, ghost k: SimpleKey)
      requires Saving(ks, flowLevel) && |ks| == flowLevel + 1 && simpleKeys == ks[|ks| - 1 := k]
      requires k == ks[|ks| - 1] || (k.number == |All()| && k.mark == mark)
      requires StartsKey(token) && Flowed(flowLevel, token) == flowLevel && Before(mark, end)
      requires Fine(text, Lexeme(token, mark, end), Columns(All()), Flow(All()) != 0)
      modifies this`tokens, this`mark
      ensures Fetched() && mark == end && tokens == old(tokens) + [Lexeme(token, old(mark), end)]
      ensures Answered(old(mark).index, flowLevel != 0)
    {
      hide Story, Keys, Levels, Flow, Ended, Layout, Bars, KeyPlaces, Gap, Fine, Columns, Just;
      var t := Lexeme(token, mark, end);
      StoryAppend(All(), mark, |indents|, t, end);
      KeysSave(ks, All(), tokensParsed, mark, k, t, end);
      FlowAppend(All(), t);
      Enqueued(delivered, tokens, t);
      LastFree(text, All());
      LayoutAppend(text, All(), t);
      BarsSame(indents, indent, All(), t);
      PlacesSave(ks, All(), indent, k, t);
      LastOf(All(), t);
      Calling(text, t, Columns(All()), Flow(All()) != 0);
      mark := end;
      tokens := tokens + [t];
    }

    /** Ready for the first token of a block entry: the tokens are `before`, or also the opening
        token of its collection. */
    ghost predicate Entering(opener: Token, before: seq<Lexeme>, depth: nat)
      reads this
    {
      streamStartProduced && |delivered| == tokensParsed && |simpleKeys| == flowLevel + 1 &&
      Levels(indents, indent) && Layout(text, All()) && Bars(indents, indent, All()) &&
      Story(before, mark, depth) && !Ended(before) && Flow(before) == flowLevel &&
      Keys(simpleKeys, before, tokensParsed, mark) && Spotted() && Ready() &&
      ((All() == before && |indents| == depth) ||
       (All() == before + [Mere(opener, mark)] && |indents| == depth + 1))
    }

    /** Queues the first token of a block entry, after the start of its collection if one had
        to be queued; `before` are the tokens before that. */
    method EnterWith(token: Token, ghost opener: Token, ghost before: seq<Lexeme>, ghost depth: nat)
      requires Entering(opener, before, depth) && Opens(opener) && Heads(opener, token)
      requires simpleKeys[0].possible ==> Quiet(token, flowLevel != 0)
      requires Fine(text, Lexeme(token, mark, Skipped(mark, 1)), Columns(All()), flowLevel != 0)
      modifies this`tokens, this`mark
      ensures Fetched() && mark == Skipped(old(mark), 1)
      ensures tokens == old(tokens) + [Lexeme(token, old(mark), mark)] && Answered(old(mark).index, flowLevel != 0)
    {
      hide Story, Keys, Levels, Flow, Ended, Layout, Bars, KeyPlaces, Gap, Fine, Columns, Quiet, Just;
      var end := Skipped(mark, 1);
      var t := Lexeme(token, mark, end);
      ghost var o := Mere(opener, mark);
      FlowAppend(All(), t);
      if All() == before {
        StoryAppend(before, mark, depth, t, end);
        KeysAppend(simpleKeys, before, tokensParsed, mark, [t], end);
      } else {
        FlowAppend(before, o);
        StoryOpen(before, mark, depth, o, t, end);
        KeysAppend(simpleKeys, before, tokensParsed, mark, [o] + [t], end);
        assert before + ([o] + [t]) == before + [o] + [t];
      }
      Enqueued(delivered, tokens, t);
      LayoutAppend(text, All(), t);
      BarsSame(indents, indent, All(), t);
      PlacesAppend(simpleKeys, All(), indent, t);
      LastOf(All(), t);
      Calling(text, t, Columns(All()), flowLevel != 0);
      mark := end;
      tokens := tokens + [t];
    }

    method FetchDirective() returns (ok: bool)
      requires Poised() && mark.column == 0 && CharAt(text, mark.index) == '%'
      modifies this`answers, this`mark, this`tokens, this`simpleKeys, this`simpleKeyAllowed, this`indent, this`indents,
               this`error
      ensures ok == (!old(Blocked()) && old(answers) != [] && old(answers)[0].Read?)
      ensures ok ==> Fetched() && Remaining() < old(Remaining()) && error == old(error)
      ensures ok ==>
        old(tokens) < tokens && tokens[|tokens| - 1] == Lexeme(DirectiveToken(old(answers)[0]), old(mark), mark)
      ensures ok ==> !simpleKeyAllowed && mark == After(old(mark), old(answers)[0])
      ensures ok ==> Answered(old(mark).index, flowLevel != 0)
    {
      hide Story, Keys, Levels, Kept, Flow, Ended, Layout, Bars, KeyPlaces, Gap, Columns, Fine, Answered;
      ok := CloseAll();
      if !ok {
        return;
      }
      var a := TakeAnswer();
      if a.Refused? {
        return false;
      }
      DirectiveFine(text, mark, a, Columns(All()), flowLevel != 0);
      EndWith(DirectiveToken(a), After(mark, a));
    }

    method FetchDocumentIndicator(token: Token) returns (ok: bool)
      requires Poised() && Indicates(text, token, mark)
      modifies this`mark, this`tokens, this`simpleKeys, this`simpleKeyAllowed, this`indent, this`indents, this`error
      ensures ok == !old(Blocked())
      ensures ok ==> Fetched() && Remaining() < old(Remaining()) && error == old(error)
      ensures ok ==> old(tokens) < tokens && tokens[|tokens| - 1] == Lexeme(token, old(mark), mark)
      ensures ok ==> !simpleKeyAllowed && mark == Skipped(old(mark), 3)
      ensures ok ==> Answered(old(mark).index, flowLevel != 0)
    {
      hide Story, Keys, Levels, Kept, Flow, Ended, Layout, Bars, KeyPlaces, Gap, Columns, Fine, Marker, Indicates,
           Answered;
      MarkerHere(text, token, mark);
      ok := CloseAll();
      if !ok {
        return;
      }
      IndicatorFine(text, token, mark, Columns(All()), flowLevel != 0);
      EndWith(token, Skipped(mark, 3));
    }

    /** Queues the start of a flow collection, when its level is already entered. */
    method OpenFlow(token: Token, ghost ks: seq<SimpleKey>, ghost k: SimpleKey)
      requires flowLevel > 0 && Saving(ks, flowLevel - 1) && |ks| == flowLevel
      requires simpleKeys == ks[|ks| - 1 := k] + [NO_KEY]
      requires k == ks[|ks| - 1] || (k.number == |All()| && k.mark == mark)
      requires token == FlowSequenceStart || token == FlowMappingStart
      requires Fine(text, Lexeme(token, mark, Skipped(mark, 1)), Columns(All()), flowLevel != 1)
      modifies this`tokens, this`mark
      ensures Fetched() && mark == Skipped(old(mark), 1) && tokens == old(tokens) + [Lexeme(token, old(mark), mark)]
      ensures Answered(old(mark).index, flowLevel != 1)
    {
      hide Story, Keys, Levels, Flow, Ended, Layout, Bars, KeyPlaces, Gap, Columns, Fine, Just;
      var end := Skipped(mark, 1);
      var t := Lexeme(token, mark, end);
      StoryAppend(All(), mark, |indents|, t, end);
      KeysSave(ks, All(), tokensParsed, mark, k, t, end);
      KeysPush(ks[|ks| - 1 := k], All() + [t], tokensParsed, end);
      FlowAppend(All(), t);
      Enqueued(delivered, tokens, t);
      LastFree(text, All());
      LayoutAppend(text, All(), t);
      BarsSame(indents, indent, All(), t);
      PlacesSave(ks, All(), indent, k, t);
      PlacesPush(ks[|ks| - 1 := k], All() + [t], indent);
      LastOf(All(), t);
      Calling(text, t, Columns(All()), flowLevel != 1);
      mark := end;
      tokens := tokens + [t];
    }

    method FetchFlowCollectionStart(token: Token) returns (ok: bool)
      requires Poised()
      requires (token == FlowSequenceStart && CharAt(text, mark.index) == '[') ||
               (token == FlowMappingStart && CharAt(text, mark.index) == '{')
      modifies this`mark, this`tokens, this`simpleKeys, this`simpleKeyAllowed, this`flowLevel, this`error
      ensures ok == (!(old(simpleKeyAllowed) && old(Blocked())) && old(flowLevel) != INT_MAX)
      ensures ok ==> Fetched() && Remaining() < old(Remaining()) && error == old(error)
      ensures ok ==> tokens == old(tokens) + [Lexeme(token, old(mark), mark)] && flowLevel == old(flowLevel) + 1
      ensures ok ==> simpleKeyAllowed && mark == Skipped(old(mark), 1)
      ensures ok ==> Answered(old(mark).index, old(flowLevel) != 0)
      ensures ok ==> simpleKeys == old(simpleKeys)[old(flowLevel) := old(Saved())] + [NO_KEY]
    {
      hide Story, Keys, Levels, Flow, Ended, Layout, Bars, KeyPlaces, Gap, Columns, Fine, Poised, Saving, Answered;
      SavesHere();
      ghost var ks, k := simpleKeys, Saved();
      ok := SaveSimpleKey();
      if !ok {
        return;
      }
      ok := IncreaseFlowLevel();
      if !ok {
        return;
      }
      simpleKeyAllowed := true;
      FlowFine(text, token, mark, Columns(All()), flowLevel != 1);
      OpenFlow(token, ks, k);
    }

    method FetchFlowCollectionEnd(token: Token) returns (ok: bool)
      requires Poised()
      requires (token == FlowSequenceEnd && CharAt(text, mark.index) == ']') ||
               (token == FlowMappingEnd && CharAt(text, mark.index) == '}')
      modifies this`mark, this`tokens, this`simpleKeys, this`simpleKeyAllowed, this`flowLevel, this`error
      ensures ok == !old(Blocked())
      ensures ok ==> Fetched() && Remaining() < old(Remaining()) && error == old(error)
      ensures ok ==> tokens == old(tokens) + [Lexeme(token, old(mark), mark)]
      ensures ok ==> !simpleKeyAllowed && mark == Skipped(old(mark), 1)
      ensures ok ==> Answered(old(mark).index, old(flowLevel) != 0)
      ensures ok ==> flowLevel == if old(flowLevel) == 0 then 0 else old(flowLevel) - 1
    {
      hide Story, Keys, Levels, Flow, Ended, Layout, Bars, KeyPlaces, Gap, Columns, Answered;
      ok := RemoveSimpleKey();
      if !ok {
        return;
      }
      ghost var ks := simpleKeys;
      DecreaseFlowLevel();
      KeysFewer(ks, simpleKeys, All(), tokensParsed, mark);
      PlacesFewer(ks, simpleKeys, All(), indent);
      BarsTop(indents, indent, All());
      simpleKeyAllowed := false;
      EndWith(token, Skipped(mark, 1));
    }

    method FetchFlowEntry() returns (ok: bool)
      requires Poised() && CharAt(text, mark.index) == ','
      modifies this`mark, this`tokens, this`simpleKeys, this`simpleKeyAllowed, this`error
      ensures ok == !old(Blocked())
      ensures ok ==> Fetched() && Remaining() < old(Remaining()) && error == old(error)
      ensures ok ==> tokens == old(tokens) + [Lexeme(FlowEntry, old(mark), mark)]
      ensures ok ==> simpleKeyAllowed && !simpleKeys[flowLevel].possible && mark == Skipped(old(mark), 1)
      ensures ok ==> Answered(old(mark).index, flowLevel != 0)
    {
      hide Story, Keys, Levels, Flow, Ended, Layout, Bars, KeyPlaces, Gap, Columns, Answered;
      ok := RemoveSimpleKey();
      if !ok {
        return;
      }
      simpleKeyAllowed := true;
      BarsTop(indents, indent, All());
      EndWith(FlowEntry, Skipped(mark, 1));
    }

    /** Opens a block collection here when this column is deeper than the level: then this
        column is the level. */
    method OpenHere(opener: Token) returns (ok: bool)
      requires Poised() && flowLevel == 0 && Opens(opener)
      modifies this`tokens, this`indent, this`indents, this`error
      ensures ok == !old(TooDeep(mark.column))
      ensures ok ==> error == old(error) && Levels(indents, indent) && indent == mark.column
      ensures ok ==> if old(indent) < mark.column
                     then |indents| == |old(indents)| + 1 && tokens == old(tokens) + [Mere(opener, mark)] &&
                          All() == old(All()) + [Mere(opener, mark)]
                     else |indents| == |old(indents)| && tokens == old(tokens) && All() == old(All())
      ensures ok ==> Layout(text, All()) && Bars(indents, indent, All()) && Ready()
    {
      hide Story, Keys, Levels, Flow, Ended, Layout, Bars, KeyPlaces, Gap, Columns;
      if indent < mark.column {
        LevelsPush(indents, indent, mark.column);
        ghost var o := Mere(opener, mark);
        BarsTop(indents, indent, All());
        OpenerFine(text, opener, mark, Columns(All()));
        LayoutAppend(text, All(), o);
        BarsOpen(indents, indent, All(), o);
        GapAgain(text, All()[|All()| - 1].end, mark);
        LastOf(All(), o);
        Enqueued(delivered, tokens, o);
      }
      ok := RollIndent(mark.column, None, opener, mark);
    }

    /** Before '-' or '?': in block context a collection is opened when it is deeper than the
        level, and no simple key can have begun before. */
    method BeginEntry(opener: Token) returns (ok: bool, ghost before: seq<Lexeme>, ghost depth: nat)
      requires Poised() && Opens(opener)
      modifies this`tokens, this`simpleKeys, this`indent, this`indents, this`error
      ensures ok == (!old(Blocked()) && (flowLevel == 0 ==> simpleKeyAllowed && !old(TooDeep(mark.column))))
      ensures ok ==> Entering(opener, before, depth) && error == old(error) && !simpleKeys[flowLevel].possible
      ensures ok ==>
        tokens == old(tokens) + if flowLevel == 0 && old(indent) < mark.column then [Mere(opener, mark)] else []
      ensures ok && flowLevel == 0 ==> indent == mark.column
    {
      hide Story, Keys, Levels, Flow, Ended, Layout, Bars, KeyPlaces, Gap, Columns;
      before, depth := All(), |indents|;
      ghost var ks := simpleKeys;
      if flowLevel == 0 {
        if !simpleKeyAllowed {
          error := true;
          ok := false;
          return;
        }
        ok := OpenHere(opener);
        if !ok {
          return;
        }
      }
      ok := RemoveSimpleKey();
      if !ok {
        return;
      }
      KeysFewer(ks, simpleKeys, before, tokensParsed, mark);
      if flowLevel == 0 {
        PlacesNone(simpleKeys, All(), indent);
      }
    }

    /** '-' or '?'. */
    method FetchEntry(token: Token, opener: Token) returns (ok: bool)
      requires Poised()
      requires (token == BlockEntry && opener == BlockSequenceStart && CharAt(text, mark.index) == '-' &&
                IsBlankZ(CharAt(text, mark.index + 1))) ||
               (token == Key && opener == BlockMappingStart && CharAt(text, mark.index) == '?' &&
                (flowLevel != 0 || IsBlankZ(CharAt(text, mark.index + 1))))
      modifies this`mark, this`tokens, this`simpleKeys, this`simpleKeyAllowed, this`indent, this`indents, this`error
      ensures ok == (!old(Blocked()) && (flowLevel == 0 ==> old(simpleKeyAllowed) && !old(TooDeep(mark.column))))
      ensures ok ==> Fetched() && Remaining() < old(Remaining()) && error == old(error)
      ensures ok ==> tokens == old(tokens) + (if flowLevel == 0 && old(indent) < old(mark).column
                                              then [Mere(opener, old(mark))] else []) + [Lexeme(token, old(mark), mark)]
      ensures ok ==> simpleKeyAllowed == (token == BlockEntry || flowLevel == 0) && !simpleKeys[flowLevel].possible
      ensures ok ==> mark == Skipped(old(mark), 1) && Answered(old(mark).index, flowLevel != 0)
    {
      hide Story, Keys, Levels, Flow, Ended, Layout, Bars, KeyPlaces, Gap, Columns, Fine, Quiet, Answered;
      ghost var before, depth;
      ok, before, depth := BeginEntry(opener);
      if !ok {
        return;
      }
      BarsTop(indents, indent, All());
      simpleKeyAllowed := token == BlockEntry || flowLevel == 0;
      EntryFine(text, token, mark, Columns(All()), flowLevel != 0);
      EnterWith(token, opener, before, depth);
    }

    /** KEY before the token a key began with, after the start of its mapping if the key is
        deeper than the level. */
    method SpliceKey(k: SimpleKey) returns (ok: bool)
      requires tokensParsed <= k.number <= tokensParsed + |tokens|
      modifies this`tokens, this`indent, this`indents, this`error
      ensures ok == (flowLevel == 0 ==> !old(TooDeep(k.mark.column)))
      ensures ok ==>
        var opens, n := flowLevel == 0 && old(indent) < k.mark.column, k.number - tokensParsed;
        && error == old(error) && tokens == old(tokens)[..n] + Inserted(opens, k.mark) + old(tokens)[n..]
        && indents == (if opens then old(indents) + [old(indent)] else old(indents))
        && indent == if opens then k.mark.column else old(indent)
    {
      var n := k.number - tokensParsed;
      SpliceTwice(tokens, n, k.mark);
      tokens := tokens[..n] + [Mere(Key, k.mark)] + tokens[n..];
      ok := RollIndent(k.mark.column, Some(k.number), BlockMappingStart, k.mark);
    }

    /** The key that was possible is one. */
    method InsertKey() returns (ok: bool)
      requires Poised() && InReach(simpleKeys, mark) && simpleKeys[flowLevel].possible
      modifies this`tokens, this`simpleKeys, this`simpleKeyAllowed, this`indent, this`indents, this`error
      ensures ok == (flowLevel == 0 ==> !old(TooDeep(simpleKeys[flowLevel].mark.column)))
      ensures ok ==> Poised() && error == old(error) && !simpleKeys[flowLevel].possible && !simpleKeyAllowed
      ensures ok ==>
        var k := old(simpleKeys[flowLevel]); var n := k.number - tokensParsed;
        0 <= n < |old(tokens)| && old(tokens)[n].start == k.mark &&
        tokens == old(tokens)[..n] + Inserted(flowLevel == 0 && old(indent) < k.mark.column, k.mark) + old(tokens)[n..]
    {
      hide Poised, Whole, InReach, Inserted;
      SavesHere();
      KeyWhole(text, simpleKeys, delivered, tokens, indents, indent, mark, flowLevel);
      var k := simpleKeys[flowLevel];
      ok := SpliceKey(k);
      if !ok {
        return;
      }
      simpleKeys := simpleKeys[flowLevel := k.(possible := false)];
      simpleKeyAllowed := false;
      SavesHere();
    }

    /** ':' behind a simple key. */
    method FetchSimpleValue() returns (ok: bool)
      requires Poised() && InReach(simpleKeys, mark) && CharAt(text, mark.index) == ':'
      requires (flowLevel != 0 || IsBlankZ(CharAt(text, mark.index + 1))) && simpleKeys[flowLevel].possible
      modifies this`mark, this`tokens, this`simpleKeys, this`simpleKeyAllowed, this`indent, this`indents, this`error
      ensures ok == (flowLevel == 0 ==> !old(TooDeep(simpleKeys[flowLevel].mark.column)))
      ensures ok ==> Fetched() && Remaining() < old(Remaining()) && error == old(error)
      ensures ok ==> !simpleKeyAllowed && !simpleKeys[flowLevel].possible
      ensures ok ==> mark == Skipped(old(mark), 1) && Answered(old(mark).index, flowLevel != 0)
      ensures ok ==>
        var k := old(simpleKeys[flowLevel]); var n := k.number - tokensParsed;
        && 0 <= n < |old(tokens)| && old(tokens)[n].start == k.mark
        && k.mark.line == old(mark).line && old(mark).index <= k.mark.index + 1024
        && tokens == old(tokens)[..n] + Inserted(flowLevel == 0 && old(indent) < k.mark.column, k.mark) +
                     old(tokens)[n..] + [Lexeme(Value, old(mark), mark)]
    {
      hide Story, Levels, Flow, Layout, Bars, KeyPlaces, Gap, Columns, Fine, Quiet, Answered;
      assert KeyOk(simpleKeys[flowLevel], All(), tokensParsed, mark) && !Stale(simpleKeys[flowLevel], mark);
      hide Keys, InReach, Inserted;
      ok := InsertKey();
      if !ok {
        return;
      }
      BarsTop(indents, indent, All());
      EntryFine(text, Value, mark, Columns(All()), flowLevel != 0);
      EndWith(Value, Skipped(mark, 1));
    }

    /** ':' behind an explicit key, or behind none. */
    method FetchBareValue() returns (ok: bool)
      requires Poised() && CharAt(text, mark.index) == ':'
      requires (flowLevel != 0 || IsBlankZ(CharAt(text, mark.index + 1))) && !simpleKeys[flowLevel].possible
      modifies this`mark, this`tokens, this`simpleKeyAllowed, this`indent, this`indents, this`error
      ensures ok == (flowLevel == 0 ==> old(simpleKeyAllowed) && !old(TooDeep(mark.column)))
      ensures ok ==> Fetched() && Remaining() < old(Remaining()) && error == old(error)
      ensures ok ==> simpleKeyAllowed == (flowLevel == 0)
      ensures ok ==> mark == Skipped(old(mark), 1) && Answered(old(mark).index, flowLevel != 0)
      ensures ok ==> tokens == old(tokens) + (if flowLevel == 0 && old(indent) < old(mark).column
                                              then [Mere(BlockMappingStart, old(mark))] else []) +
                               [Lexeme(Value, old(mark), mark)]
    {
      hide Story, Keys, Levels, Flow, Ended, Layout, Bars, KeyPlaces, Gap, Columns, Fine, Quiet, Answered;
      ghost var before, depth := All(), |indents|;
      if flowLevel == 0 {
        if !simpleKeyAllowed {
          error := true;
          return false;
        }
        ok := OpenHere(BlockMappingStart);
        if !ok {
          return;
        }
        PlacesNone(simpleKeys, All(), indent);
      }
      BarsTop(indents, indent, All());
      simpleKeyAllowed := flowLevel == 0;
      EntryFine(text, Value, mark, Columns(All()), flowLevel != 0);
      EnterWith(Value, BlockMappingStart, before, depth);
      ok := true;
    }

    /** ':' ends a simple key, or an explicit one when no simple key is possible. */
    method FetchValue() returns (ok: bool)
      requires Poised() && InReach(simpleKeys, mark) && CharAt(text, mark.index) == ':'
      requires flowLevel != 0 || IsBlankZ(CharAt(text, mark.index + 1))
      modifies this`mark, this`tokens, this`simpleKeys, this`simpleKeyAllowed, this`indent, this`indents, this`error
      ensures ok == if old(simpleKeys[flowLevel]).possible then flowLevel == 0 ==>
        !old(TooDeep(simpleKeys[flowLevel].mark.column))
                    else flowLevel == 0 ==> old(simpleKeyAllowed) && !old(TooDeep(mark.column))
      ensures ok ==> Fetched() && Remaining() < old(Remaining()) && error == old(error)
      ensures ok ==>
        !simpleKeys[flowLevel].possible &&
        simpleKeyAllowed == (!old(simpleKeys[flowLevel]).possible && flowLevel == 0)
      ensures ok ==> mark == Skipped(old(mark), 1) && Answered(old(mark).index, flowLevel != 0)
      ensures ok ==>
        var k := old(simpleKeys[flowLevel]); var n := k.number - tokensParsed;
        if k.possible then
          0 <= n < |old(tokens)| && old(tokens)[n].start == k.mark &&
          k.mark.line == old(mark).line && old(mark).index <= k.mark.index + 1024 &&
          tokens == old(tokens)[..n] + Inserted(flowLevel == 0 && old(indent) < k.mark.column, k.mark) +
                    old(tokens)[n..] + [Lexeme(Value, old(mark), mark)]
        else
          tokens == old(tokens) + (if flowLevel == 0 && old(indent) < old(mark).column
                                   then [Mere(BlockMappingStart, old(mark))] else []) + [Lexeme(Value, old(mark), mark)]
    {
      hide Story, Keys, Levels, Flow, Ended, Layout, Bars, KeyPlaces, Gap, Inserted, Answered, InReach, Remaining;
      if simpleKeys[flowLevel].possible {
        ok := FetchSimpleValue();
      } else {
        ok := FetchBareValue();
      }
    }

    /** An alias, anchor, tag, quoted or plain scalar: may begin a simple key. */
    method FetchText(kind: TextKind) returns (ok: bool)
      requires Poised() && CalledFor(text, mark, kind, flowLevel != 0) && CharAt(text, mark.index) != '\0'
      modifies this`answers, this`mark, this`tokens, this`simpleKeys, this`simpleKeyAllowed, this`error
      ensures ok == (!(old(simpleKeyAllowed) && old(Blocked())) && old(answers) != [] && old(answers)[0].Read?)
      ensures ok ==> Fetched() && Remaining() < old(Remaining()) && error == old(error)
      ensures ok ==> old(answers) != [] && old(answers)[0].Read? &&
                     tokens == old(tokens) + [Lexeme(TextToken(kind, old(answers)[0]), old(mark), mark)] &&
                     simpleKeyAllowed == (kind == PlainText && old(answers)[0].leading) &&
                     simpleKeys == old(simpleKeys)[flowLevel := old(Saved())] &&
                     mark == After(old(mark), old(answers)[0])
      ensures ok ==> Answered(old(mark).index, flowLevel != 0)
    {
      hide Story, Keys, Levels, Flow, Ended, Layout, Bars, KeyPlaces, Gap, Columns, CalledFor, Fine, Answered,
           TextToken, Just, After, Poised, Saving;
      SavesHere();
      ghost var ks, k := simpleKeys, Saved();
      ok := SaveSimpleKey();
      if !ok {
        return;
      }
      simpleKeyAllowed := false;
      var a := TakeAnswer();
      if a.Refused? {
        return false;
      }
      if kind == PlainText && a.leading {
        simpleKeyAllowed := true;
      }
      TextFine(text, mark, kind, a, Columns(All()), flowLevel != 0);
      BeginWith(TextToken(kind, a), After(mark, a), ks, k);
    }

    method FetchBlockScalar() returns (ok: bool)
      requires Poised() && flowLevel == 0 && (CharAt(text, mark.index) == '|' || CharAt(text, mark.index) == '>')
      modifies this`answers, this`mark, this`tokens, this`simpleKeys, this`simpleKeyAllowed, this`error
      ensures ok == (!old(Blocked()) && old(answers) != [] && old(answers)[0].Read?)
      ensures ok ==> Fetched() && Remaining() < old(Remaining()) && error == old(error)
      ensures ok ==> tokens == old(tokens) + [Lexeme(ScalarToken(old(answers)[0].first), old(mark), mark)]
      ensures ok ==> simpleKeyAllowed && !simpleKeys[flowLevel].possible && mark == After(old(mark), old(answers)[0])
      ensures ok ==> Answered(old(mark).index, flowLevel != 0)
    {
      hide Story, Keys, Levels, Flow, Ended, Layout, Bars, KeyPlaces, Gap, Columns, Answered, Fine;
      ok := RemoveSimpleKey();
      if !ok {
        return;
      }
      simpleKeyAllowed := true;
      var a := TakeAnswer();
      if a.Refused? {
        return false;
      }
      BarsTop(indents, indent, All());
      ScalarFine(text, mark, a, Columns(All()));
      EndWith(ScalarToken(a.first), After(mark, a));
    }

    /** How far the scanner has come from `from` in a text without tokens: it has passed over
        idle characters only, and knows whether it stands at the beginning of a line. */
    ghost predicate Strolls(from: Mark)
      reads this`mark
    {
      && Passed(text, from, mark.index) && Reaches(from, mark)
      && (mark.column == 0 <==> LineStart(text, from, mark.index))
      && (mark.line == from.line <==> OneLine(text, from.index, mark.index))
    }

    /** Passes over one idle character that is not a line break. */
    method Pass(ghost from: Mark)
      requires Strolls(from) && Idle(text, from, mark.index) && !IsBreak(CharAt(text, mark.index))
      modifies this`mark
      ensures Strolls(from) && mark == Skipped(old(mark), 1)
    {
      PassedMore(text, from, mark.index);
      LineMore(text, from.index, mark.index);
      mark := Skipped(mark, 1);
    }

    /** Passes over a line break; '\r\n' is one. */
    method PassBreak(ghost from: Mark, ghost allowed: bool)
      requires Strolls(from) && TabsPassed(from, allowed) && IsBreak(CharAt(text, mark.index))
      modifies this`mark
      ensures Strolls(from) && TabsPassed(from, allowed) && old(mark).index < mark.index
      ensures mark.line == old(mark).line + 1 && mark.column == 0
      ensures !InComment(text, from.index, mark.index) && from.line < mark.line
    {
      var i := mark.index;
      var crlf := CharAt(text, i) == '\r' && CharAt(text, i + 1) == '\n';
      PassedMore(text, from, i);
      LineMore(text, from.index, i);
      CommentStep(text, from.index, i);
      if crlf {
        PassedMore(text, from, i + 1);
        LineMore(text, from.index, i + 1);
        CommentStep(text, from.index, i + 1);
      }
      mark := Mark(i + (if crlf then 2 else 1), mark.line + 1, 0);
    }

    /** A tab that may be passed over: in a flow collection, behind a '#', or on the line of the
        last token if no key may begin there. */
    ghost predicate TabsPassed(from: Mark, allowed: bool)
      reads this`mark, this`flowLevel
    {
      forall i :: from.index <= i < mark.index && CharAt(text, i) == '\t' ==>
        flowLevel != 0 || InComment(text, from.index, i) || (!allowed && OneLine(text, from.index, i))
    }

    /** Passes over blanks. */
    method PassBlanks(ghost from: Mark, ghost allowed: bool)
      requires Strolls(from) && TabsPassed(from, allowed) && !InComment(text, from.index, mark.index)
      requires simpleKeyAllowed == (allowed || (flowLevel == 0 && from.line < mark.line))
      modifies this`mark
      ensures Strolls(from) && TabsPassed(from, allowed) && !InComment(text, from.index, mark.index)
      ensures old(mark).index <= mark.index && mark == Skipped(old(mark), mark.index - old(mark).index)
      ensures var c := CharAt(text, mark.index); c != ' ' && (flowLevel != 0 || !simpleKeyAllowed ==> c != '\t')
    {
      while CharAt(text, mark.index) == ' ' ||
            ((flowLevel != 0 || !simpleKeyAllowed) && CharAt(text, mark.index) == '\t')
        invariant Strolls(from) && TabsPassed(from, allowed) && !InComment(text, from.index, mark.index)
        invariant mark.line == old(mark).line && old(mark).index <= mark.index
        invariant mark == Skipped(old(mark), mark.index - old(mark).index)
        decreases if mark.index < |text| then |text| - mark.index else 0
      {
        CommentStep(text, from.index, mark.index);
        Pass(from);
      }
    }

    /** Passes over a comment, up to the end of its line. */
    method PassComment(ghost from: Mark, ghost allowed: bool)
      requires Strolls(from) && TabsPassed(from, allowed) && CharAt(text, mark.index) == '#'
      modifies this`mark
      ensures Strolls(from) && TabsPassed(from, allowed)
      ensures old(mark).index < mark.index && mark == Skipped(old(mark), mark.index - old(mark).index)
      ensures IsBreak(CharAt(text, mark.index)) || CharAt(text, mark.index) == '\0'
    {
      while !IsBreak(CharAt(text, mark.index)) && CharAt(text, mark.index) != '\0'
        invariant Strolls(from) && TabsPassed(from, allowed) && old(mark).index <= mark.index
        invariant mark == Skipped(old(mark), mark.index - old(mark).index)
        invariant if mark.index == old(mark).index then CharAt(text, mark.index) == '#'
                  else InComment(text, from.index, mark.index)
        decreases if mark.index < |text| then |text| - mark.index else 0
      {
        CommentStep(text, from.index, mark.index);
        Pass(from);
      }
    }

    /** Passes over a byte order mark at the beginning of a line. */
    method PassBom(ghost from: Mark, ghost allowed: bool)
      requires Strolls(from) && TabsPassed(from, allowed) && !InComment(text, from.index, mark.index)
      modifies this`mark
      ensures Strolls(from) && TabsPassed(from, allowed) && !InComment(text, from.index, mark.index)
      ensures mark == old(mark) || mark == Skipped(old(mark), 1)
      ensures !(mark.column == 0 && CharAt(text, mark.index) == BOM)
    {
      if mark.column == 0 && CharAt(text, mark.index) == BOM {
        CommentStep(text, from.index, mark.index);
        Pass(from);
      }
    }

    /** Passes over what is idle up to the end of the line, and over the line break if there is
        one; `more` tells whether there was. */
    method PassLine(ghost from: Mark, ghost allowed: bool) returns (more: bool)
      requires Strolls(from) && TabsPassed(from, allowed) && !InComment(text, from.index, mark.index)
      requires simpleKeyAllowed == (allowed || (flowLevel == 0 && from.line < mark.line))
      modifies this`mark, this`simpleKeyAllowed
      ensures Strolls(from) && TabsPassed(from, allowed)
      ensures simpleKeyAllowed == (allowed || (flowLevel == 0 && from.line < mark.line))
      ensures more ==>
        !InComment(text, from.index, mark.index) && old(mark).index < mark.index && old(mark).index < |text|
      ensures !more ==> Gap(text, from, mark) && !IsBreak(CharAt(text, mark.index))
      ensures !more ==> var c := CharAt(text, mark.index);
        c != ' ' && c != '#' && (flowLevel != 0 || !simpleKeyAllowed ==> c != '\t')
    {
      hide Strolls, TabsPassed, InComment, Gap, Passed, LineStart;
      PassBom(from, allowed);
      PassBlanks(from, allowed);
      if CharAt(text, mark.index) == '#' {
        PassComment(from, allowed);
      }
      if IsBreak(CharAt(text, mark.index)) {
        PassBreak(from, allowed);
        if flowLevel == 0 {
          simpleKeyAllowed := true;
        }
        return true;
      }
      Stops(from);
      more := false;
    }

    /** Where the idle characters end, a token may begin. */
    lemma {:induction false} Stops(from: Mark)
      requires Strolls(from)
      requires var c := CharAt(text, mark.index);
        c == '\0' ||
        (c != ' ' && c != '#' && !IsBreak(c) && !InComment(text, from.index, mark.index) &&
         !(c == BOM && mark.column == 0))
      ensures Gap(text, from, mark)
    {
    }

    /** Passes over blanks, comments and line breaks, and nothing else, until there are no more. */
    method ScanToNextToken()
      modifies this`mark, this`simpleKeyAllowed
      ensures Gap(text, old(mark), mark) && Strolls(old(mark)) && TabsPassed(old(mark), old(simpleKeyAllowed))
      ensures var c := CharAt(text, mark.index);
        c != ' ' && c != '#' && !IsBreak(c) && (flowLevel != 0 || !simpleKeyAllowed ==> c != '\t')
      ensures simpleKeyAllowed == (old(simpleKeyAllowed) || (flowLevel == 0 && old(mark).line < mark.line))
    {
      ghost var from, allowed := mark, simpleKeyAllowed;
      CommentStep(text, from.index, from.index);
      while true
        invariant Strolls(from) && TabsPassed(from, allowed) && !InComment(text, from.index, mark.index)
        invariant simpleKeyAllowed == (allowed || (flowLevel == 0 && from.line < mark.line))
        decreases if mark.index < |text| then |text| - mark.index else 0
      {
        var more := PassLine(from, allowed);
        if !more {
          break;
        }
      }
    }

    /** Chooses the token by the characters at hand. */
    method Dispatch() returns (ok: bool)
      requires Poised() && InReach(simpleKeys, mark)
      modifies this`answers, this`mark, this`tokens, this`simpleKeys, this`simpleKeyAllowed, this`flowLevel,
      this`indent, this`indents, this`error
      ensures ok ==> Inv() && Finished() && Spotted() && Abreast()
      ensures ok ==> Remaining() < old(Remaining()) && error == old(error)
      ensures ok ==> Answered(old(mark).index, old(flowLevel) != 0)
    {
      hide Story, Keys, Levels, Flow, InReach, AllBehind, Ended, Layout, Bars, KeyPlaces, Gap, Answered;
      var i, c := mark.index, CharAt(text, mark.index);
      var second, fourth := CharAt(text, i + 1), CharAt(text, i + 3);
      if c == '\0' {
        ok := FetchStreamEnd();
      } else if mark.column == 0 && c == '%' {
        ok := FetchDirective();
      } else if mark.column == 0 && c == '-' && second == '-' && CharAt(text, i + 2) == '-' && IsBlankZ(fourth) {
        ok := FetchDocumentIndicator(DocumentStartToken);
      } else if mark.column == 0 && c == '.' && second == '.' && CharAt(text, i + 2) == '.' && IsBlankZ(fourth) {
        ok := FetchDocumentIndicator(DocumentEndToken);
      } else {
        ok := DispatchIndicator(c, second);
      }
    }

    method DispatchIndicator(c: char, second: char) returns (ok: bool)
      requires Poised() && InReach(simpleKeys, mark) && !Marker(text, mark)
      requires c == CharAt(text, mark.index) && c != '\0' && second == CharAt(text, mark.index + 1)
      modifies this`answers, this`mark, this`tokens, this`simpleKeys, this`simpleKeyAllowed, this`flowLevel,
      this`indent, this`indents, this`error
      ensures ok ==> Fetched() && Remaining() < old(Remaining()) && error == old(error)
      ensures ok ==> Answered(old(mark).index, old(flowLevel) != 0)
    {
      hide Story, Keys, Levels, Flow, InReach, Ended, Layout, Bars, KeyPlaces, Gap, Marker, Answered,
           Remaining, Poised, Fetched, Going;
      if c == '[' {
        ok := FetchFlowCollectionStart(FlowSequenceStart);
      } else if c == '{' {
        ok := FetchFlowCollectionStart(FlowMappingStart);
      } else if c == ']' {
        ok := FetchFlowCollectionEnd(FlowSequenceEnd);
      } else if c == '}' {
        ok := FetchFlowCollectionEnd(FlowMappingEnd);
      } else if c == ',' {
        ok := FetchFlowEntry();
      } else if c == '-' && IsBlankZ(second) {
        ok := FetchEntry(BlockEntry, BlockSequenceStart);
      } else if c == '?' && (flowLevel != 0 || IsBlankZ(second)) {
        ok := FetchEntry(Key, BlockMappingStart);
      } else if c == ':' && (flowLevel != 0 || IsBlankZ(second)) {
        ok := FetchValue();
      } else {
        ok := DispatchText(c, second);
      }
    }

    method DispatchText(c: char, second: char) returns (ok: bool)
      requires Poised() && !Marker(text, mark) && (c == '-' ==> !IsBlankZ(second))
      requires c == CharAt(text, mark.index) && c != '\0' && second == CharAt(text, mark.index + 1)
      modifies this`answers, this`mark, this`tokens, this`simpleKeys, this`simpleKeyAllowed, this`error
      ensures ok ==> Fetched() && Remaining() < old(Remaining()) && error == old(error)
      ensures ok ==> Answered(old(mark).index, flowLevel != 0)
    {
      hide Story, Keys, Levels, Flow, Ended, Layout, Bars, KeyPlaces, Gap, Marker, Answered,
           Remaining, Poised, Fetched, Going;
      if c == '*' {
        ok := FetchText(AliasText);
      } else if c == '&' {
        ok := FetchText(AnchorText);
      } else if c == '!' {
        ok := FetchText(TagText);
      } else if (c == '|' || c == '>') && flowLevel == 0 {
        ok := FetchBlockScalar();
      } else if c == '\'' || c == '"' {
        ok := FetchText(QuotedText);
      } else if !(IsBlankZ(c) || IsIndicator(c)) || (c == '-' && !IsBlank(second)) ||
                (flowLevel == 0 && (c == '?' || c == ':') && !IsBlankZ(second)) {
        ok := FetchText(PlainText);
      } else {
        error := true;
        ok := false;
      }
    }

    method FetchNextToken() returns (ok: bool)
      requires Valid() && !tokenAvailable && !Ended(All())
      modifies this`answers, this`mark, this`tokens, this`simpleKeys, this`simpleKeyAllowed, this`flowLevel,
      this`indent, this`indents, this`streamStartProduced, this`error
      ensures ok ==> Valid() && Remaining() < old(Remaining()) && error == old(error)
    {
      hide Story, Keys, Levels, Flow, AllBehind, Kept, Ended, Layout, Bars, KeyPlaces, Gap;
      if !streamStartProduced {
        FetchStreamStart();
        return true;
      }
      ok := Approach();
      if ok {
        ok := Dispatch();
      }
    }

    /** Goes to where the next token begins, drops the keys that are out of reach, and closes
        the block collections that this column is before. */
    method Approach() returns (ok: bool)
      requires Going() && Spotted() && Abreast()
      modifies this`mark, this`tokens, this`simpleKeys, this`simpleKeyAllowed, this`indent, this`indents, this`error
      ensures ok ==> Poised() && InReach(simpleKeys, mark) && Remaining() <= old(Remaining()) && error == old(error)
      ensures ok ==> Gap(text, old(mark), mark)
    {
      hide Story, Keys, Levels, Flow, AllBehind, Kept, Ended, Layout, Bars, KeyPlaces, Gap, Marker;
      ghost var at, ks := mark, simpleKeys;
      ScanToNextToken();
      StoryMark(All(), at, |indents|, mark);
      KeysAppend(ks, All(), tokensParsed, at, [], mark);
      assert All() + [] == All();
      ok := StaleSimpleKeys();
      if !ok {
        return;
      }
      KeysFewer(ks, simpleKeys, All(), tokensParsed, mark);
      PlacesFewer(ks, simpleKeys, All(), indent);
      if simpleKeys[0].possible {
        NotBefore(simpleKeys, All(), tokensParsed, mark, indent);
      }
      UnrollIndent(mark.column);
      if flowLevel == 0 && !simpleKeys[0].possible {
        PlacesNone(simpleKeys, All(), indent);
      }
    }
    /** Whether another token must be fetched: there is none, or a simple key may begin with the
        next one. */
    method NeedsMore() returns (ok: bool, need: bool)
      requires Valid() && !tokenAvailable && !streamEndProduced
      modifies this`simpleKeys, this`error
      ensures ok ==> Valid() && error == old(error)
      ensures ok ==> if need then !Ended(All()) else tokens != [] && Clear(simpleKeys, tokensParsed)
    {
      hide Story, Levels, Flow, Layout, Bars, KeyPlaces;
      ok, need := true, false;
      if tokens == [] {
        need := true;
        assert All() == delivered;
        return;
      }
      ghost var ks := simpleKeys;
      ok := StaleSimpleKeys();
      if !ok {
        return;
      }
      KeysFewer(ks, simpleKeys, All(), tokensParsed, mark);
      if streamStartProduced {
        PlacesFewer(ks, simpleKeys, All(), indent);
      }
      assert Ended(All()) ==> forall j :: 0 <= j < |simpleKeys| ==> !simpleKeys[j].possible;
      var i := 0;
      while i < |simpleKeys| && !need
        invariant i <= |simpleKeys|
        invariant forall j :: 0 <= j < i && !need ==> simpleKeys[j].possible ==> simpleKeys[j].number != tokensParsed
        invariant need ==> !Ended(All())
      {
        if simpleKeys[i].possible && simpleKeys[i].number == tokensParsed {
          need := true;
        }
        i := i + 1;
      }
    }

    /** Fetches until the first token of the queue can be delivered: no key can be put before
        it any more. */
    method FetchMoreTokens() returns (ok: bool)
      requires Valid() && !tokenAvailable && !streamEndProduced
      modifies this`answers, this`mark, this`tokens, this`simpleKeys, this`simpleKeyAllowed, this`flowLevel,
      this`indent, this`indents, this`streamStartProduced, this`tokenAvailable, this`error
      ensures ok ==> Valid() && tokenAvailable && error == old(error)
      ensures ok ==> Remaining() < old(Remaining()) || (Remaining() == old(Remaining()) && tokens == old(tokens))
    {
      hide Story, Keys, Levels, Flow, Layout, Bars, KeyPlaces, Clear, AllBehind, Ended;
      while true
        invariant Valid() && !tokenAvailable && error == old(error)
        invariant Remaining() < old(Remaining()) || (Remaining() == old(Remaining()) && tokens == old(tokens))
        decreases Remaining()
      {
        var need;
        ok, need := NeedsMore();
        if !ok {
          return;
        }
        if !need {
          break;
        }
        ok := FetchNextToken();
        if !ok {
          return;
        }
      }
      tokenAvailable := true;
      ok := true;
    }

    /** The first token of the queue leaves it. */
    method Deliver() returns (t: Lexeme)
      requires Valid() && tokenAvailable && !streamEndProduced
      modifies this`tokens, this`tokenAvailable, this`tokensParsed, this`delivered, this`streamEndProduced
      ensures Valid() && Remaining() == old(Remaining()) && |tokens| < |old(tokens)|
      ensures delivered == old(delivered) + [t] && streamEndProduced == (t.token == StreamEndToken)
    {
      hide Story, Keys, Levels, Flow, Clear, AllBehind, Ended, Layout, Bars, KeyPlaces;
      t := tokens[0];
      KeysNext(simpleKeys, All(), tokensParsed, mark);
      Dequeued(delivered, tokens);
      tokens := tokens[1..];
      tokenAvailable := false;
      tokensParsed := tokensParsed + 1;
      delivered := delivered + [t];
      if t.token == StreamEndToken {
        streamEndProduced := true;
      }
    }

    /** Delivers the next token, once: what was delivered is never put back or changed. */
    method Scan() returns (ok: bool, token: Option<Lexeme>)
      requires Valid()
      modifies this
      ensures ok ==> error == old(error) && Valid()
      ensures ok ==> (Remaining() < old(Remaining()) || (Remaining() == old(Remaining()) && |tokens| <= |old(tokens)|))
      ensures ok && token.Some? && Remaining() == old(Remaining()) ==> |tokens| < |old(tokens)|
      ensures old(streamEndProduced || error) ==> ok && token.None? && delivered == old(delivered)
      ensures ok && !old(streamEndProduced || error) ==>
        token.Some? && delivered == old(delivered) + [token.value] &&
        streamEndProduced == (token.value.token == StreamEndToken)
    {
      hide Story, Keys, Levels, Flow, Clear, AllBehind, Ended, Layout, Bars, KeyPlaces;
      if streamEndProduced || error {
        return true, None;
      }
      if !tokenAvailable {
        ok := FetchMoreTokens();
        if !ok {
          return ok, None;
        }
      }
      var t := Deliver();
      ok, token := true, Some(t);
    }
  }

  lemma {:induction false} BehindFewer(ks: seq<SimpleKey>, fewer: seq<SimpleKey>, mark: Mark)
    requires AllBehind(ks, mark) && ks != [] && fewer == ks[|ks| - 1 := ks[|ks| - 1].(possible := false)]
    ensures AllBehind(fewer, mark)
  {
  }

  lemma {:induction false} KeysNext(ks: seq<SimpleKey>, all: seq<Lexeme>, parsed: nat, mark: Mark)
    requires Keys(ks, all, parsed, mark) && Clear(ks, parsed)
    ensures Keys(ks, all, parsed + 1, mark)
  {
    forall i | 0 <= i < |ks|
      ensures KeyOk(ks[i], all, parsed + 1, mark)
    {
      assert KeyOk(ks[i], all, parsed, mark);
    }
  }

  /** What the delivered tokens show already. */
  lemma {:induction false} StoryPrefix(ts: seq<Lexeme>, mark: Mark, depth: int, some: seq<Lexeme>)
    requires Story(ts, mark, depth) && some <= ts
    ensures InOrder(some) && Nested(some)
  {
    hide Depth;
    forall i | 0 <= i <= |some|
      ensures 0 <= Depth(some[..i])
    {
      assert some[..i] == ts[..i];
    }
  }

  /** The whole stream: whatever the text and the answers, the delivered tokens come in the
      order of the text, cover it up to idle characters, are called for by their characters,
      stand in the columns of their block collections, and never close a collection that is
      not open. Unless scanning fails, they are one stream from start to end, each block
      collection starts with its first entry, all of them are closed when the flow
      collections are, and there is a token for every text that is not idle. */
  method ScanStream(text: string, answers: seq<Answer>) returns (tokens: seq<Lexeme>, ok: bool)
    ensures InOrder(tokens) && Nested(tokens) && Laid(text, tokens) && Tiled(text, tokens)
    ensures ok ==> tokens != [] && Framed(tokens) && Ended(tokens) && Headed(tokens) && KeysHeaded(tokens)
    ensures ok && Flow(tokens) == 0 ==> Depth(tokens) == 0
    ensures ok ==> (|tokens| == 2 <==> exists e :: CharAt(text, e) == '\0' && Passed(text, Mark(0, 0, 0), e))
  {
    hide Story, Keys, Levels, Flow, Clear, AllBehind, Nested, Depth, Framed, Headed, InOrder, Laid, Tiled, KeysHeaded,
         Bars, KeyPlaces, Passed, Gap;
    var s := new Scanner(text, answers);
    tokens, ok := [], true;
    assert InOrder([]) && Nested([]) && Laid(text, []) && Tiled(text, []) by {
      NoTokens(text);
    }
    while !s.streamEndProduced
      invariant fresh(s) && s.Valid() && tokens == s.delivered && InOrder(tokens) && Nested(tokens) && !s.error && ok
      invariant s.text == text && Laid(text, tokens) && Tiled(text, tokens)
      decreases s.Remaining(), |s.tokens|
    {
      var t;
      ok, t := s.Scan();
      if !ok {
        return;
      }
      tokens := tokens + [t.value];
      StoryPrefix(s.All(), s.mark, |s.indents|, tokens);
      LayoutPrefix(text, s.All(), tokens);
    }
    EndOfStory(s.All(), s.mark, |s.indents|);
    NothingAfterEnd(s.delivered, s.tokens);
    assert s.All() == tokens;
    EmptyIff(text, tokens);
  }

  lemma {:induction false} NothingAfterEnd(delivered: seq<Lexeme>, tokens: seq<Lexeme>)
    requires Framed(delivered + tokens) && Ended(delivered)
    ensures tokens == []
  {
    assert (delivered + tokens)[|delivered| - 1] == delivered[|delivered| - 1];
  }

  lemma {:induction false} NoTokens(text: string)
    ensures InOrder([]) && Nested([]) && Laid(text, []) && Tiled(text, [])
  {
  }

  lemma {:induction false} EndOfStory(ts: seq<Lexeme>, mark: Mark, depth: int)
    requires Story(ts, mark, depth)
    ensures Framed(ts) && Headed(ts) && Nested(ts) && Depth(ts) == depth
  {
  }

  lemma {:induction false} NothingYet()
    ensures Nested([]) && Depth([]) == 0 && Flow([]) == 0
  {
  }

  lemma {:induction false} StoryMark(ts: seq<Lexeme>, at: Mark, depth: int, mark: Mark)
    requires Story(ts, at, depth) && Reaches(at, mark)
    ensures Story(ts, mark, depth)
  {
    hide Nested, Depth;
  }

  // ---------- steps of the layout ----------

  lemma {:induction false} LastOf(ts: seq<Lexeme>, t: Lexeme)
    ensures (ts + [t])[|ts + [t]| - 1] == t
  {
  }

  /** A KEY that hangs on a token is never the last one. */
  lemma {:induction false} LastFree(text: string, ts: seq<Lexeme>)
    requires Layout(text, ts) && ts != []
    ensures !Hung(ts[|ts| - 1])
  {
  }

  lemma {:induction false} FirstLayout(text: string)
    ensures var ts := [Mere(StreamStartToken, Mark(0, 0, 0))]; Layout(text, ts) && Bars([], -1, ts)
  {
    hide Columns, Flow, Fine;
    var t := Mere(StreamStartToken, Mark(0, 0, 0));
    FirstFine(text);
    assert [] + [t] == [t];
    ColumnsAppend([], t);
    assert [t][..0] == [];
  }

  lemma {:induction false} FirstFine(text: string)
    ensures Columns([]) == [] && Fine(text, Mere(StreamStartToken, Mark(0, 0, 0)), [], Flow([]) != 0)
  {
  }

  /** Three times the character of a document's start or end. */
  predicate Indicates(text: string, token: Token, at: Mark) {
    at.column == 0 && ((token == DocumentStartToken && Triple(text, at.index, '-')) ||
                       (token == DocumentEndToken && Triple(text, at.index, '.')))
  }

  lemma {:induction false} MarkerHere(text: string, token: Token, at: Mark)
    requires Indicates(text, token, at)
    ensures Marker(text, at) && CharAt(text, at.index) != '\0'
    ensures token == DocumentStartToken || token == DocumentEndToken
  {
  }

  lemma {:induction false} IndicatorFine(text: string, token: Token, at: Mark, open: seq<int>, flow: bool)
    requires Indicates(text, token, at) && (flow || open == [])
    ensures Fine(text, Lexeme(token, at, Skipped(at, 3)), open, flow)
  {
  }

  lemma {:induction false} DirectiveFine(text: string, at: Mark, a: Answer, open: seq<int>, flow: bool)
    requires at.column == 0 && CharAt(text, at.index) == '%' && a.Read?
    requires flow || open == []
    ensures Fine(text, Lexeme(DirectiveToken(a), at, After(at, a)), open, flow)
  {
  }

  lemma {:induction false} EntryFine(text: string, token: Token, at: Mark, open: seq<int>, flow: bool)
    requires var c := CharAt(text, at.index);
      || (token == BlockEntry && c == '-')
      || (token == Key && c == '?')
      || (token == Value && c == ':')
    requires (flow && token != BlockEntry) || IsBlankZ(CharAt(text, at.index + 1))
    requires flow || (if token == Value then Top(open) <= at.column else Top(open) == at.column)
    ensures Fine(text, Lexeme(token, at, Skipped(at, 1)), open, flow) && (flow ==> Quiet(token, flow))
  {
  }

  lemma {:induction false} EndStreamFine(text: string, at: Mark, open: seq<int>, flow: bool)
    requires CharAt(text, at.index) == '\0' && (flow || open == [])
    ensures Fine(text, Mere(StreamEndToken, at), open, flow)
  {
  }

  lemma {:induction false} ScalarFine(text: string, at: Mark, a: Answer, open: seq<int>)
    requires a.Read? && (CharAt(text, at.index) == '|' || CharAt(text, at.index) == '>') && Top(open) <= at.column
    ensures Fine(text, Lexeme(ScalarToken(a.first), at, After(at, a)), open, false)
  {
  }

  lemma {:induction false} FlowFine(text: string, token: Token, at: Mark, open: seq<int>, flow: bool)
    requires var c := CharAt(text, at.index);
      || (token == FlowSequenceStart && c == '[')
      || (token == FlowMappingStart && c == '{')
    requires flow || Top(open) <= at.column
    ensures Fine(text, Lexeme(token, at, Skipped(at, 1)), open, flow)
  {
  }

  lemma {:induction false} Calling(text: string, t: Lexeme, open: seq<int>, flow: bool)
    requires Fine(text, t, open, flow) && !Opens(t.token) && t.token != BlockEnd && t.token != StreamStartToken
    requires t.token == Key ==> t.start != t.end
    ensures Just(text, t, flow) && (t.start != t.end || t.token == StreamEndToken)
  {
  }

  lemma {:induction false} StoryOrder(ts: seq<Lexeme>, mark: Mark, depth: nat)
    requires Story(ts, mark, depth)
    ensures InOrder(ts) && UpTo(ts, mark)
  {
  }

  lemma {:induction false} EndFine(text: string, at: Mark, open: seq<int>, column: int)
    requires open != [] && column < Top(open)
    requires column == at.column || CharAt(text, at.index) == '\0' || Marker(text, at)
    ensures Fine(text, Mere(BlockEnd, at), open, false)
  {
  }

  lemma {:induction false} OpenerFine(text: string, opener: Token, at: Mark, open: seq<int>)
    requires Opens(opener) && Top(open) < at.column
    ensures Fine(text, Mere(opener, at), open, false)
  {
  }

  /** A key outside the flow collections that is still in reach began before this column. */
  lemma {:induction false} NotBefore(ks: seq<SimpleKey>, all: seq<Lexeme>, parsed: nat, mark: Mark, indent: int)
    requires ks != [] && ks[0].possible && Keys(ks, all, parsed, mark) && KeyPlaces(ks, all, indent)
    requires !Stale(ks[0], mark)
    ensures indent <= mark.column
  {
    assert KeyOk(ks[0], all, parsed, mark);
  }

  /** The layout after a simple key is recognised. */
  lemma {:induction false} KeyLaid(text: string, ks: seq<SimpleKey>, delivered: seq<Lexeme>, tokens: seq<Lexeme>,
                                   indents: seq<int>, indent: int, mark: Mark, opens: bool)
    requires ks != [] && ks[|ks| - 1].possible && Keys(ks, delivered + tokens, |delivered|, mark) && InReach(ks, mark)
    requires Layout(text, delivered + tokens) && Bars(indents, indent, delivered + tokens)
    requires KeyPlaces(ks, delivered + tokens, indent) && InOrder(delivered + tokens) && UpTo(delivered + tokens, mark)
    requires opens == (|ks| == 1 && indent < ks[|ks| - 1].mark.column)
    ensures var k := ks[|ks| - 1]; var n := k.number - |delivered|;
      0 <= n < |tokens| &&
      var all := delivered + (tokens[..n] + Inserted(opens, k.mark) + tokens[n..]);
      && Layout(text, all)
      && Bars(if opens then indents + [indent] else indents, if opens then k.mark.column else indent, all)
      && KeyPlaces(ks[|ks| - 1 := k.(possible := false)], all, if opens then k.mark.column else indent)
      && all != [] && all[|all| - 1] == (delivered + tokens)[|delivered + tokens| - 1]
      && k.mark.column <= mark.column
  {
    hide Layout, Bars, KeyPlaces, InOrder, UpTo;
    var all, k := delivered + tokens, ks[|ks| - 1];
    KeyToken(ks, all, |delivered|, mark);
    assert KeyOk(k, all, |delivered|, mark) && !Stale(k, mark);
    var n := k.number - |delivered|;
    SpliceQueue(delivered, tokens, n, Inserted(opens, k.mark));
    LayoutKey(text, ks, all, indents, indent, mark, opens);
  }
}
