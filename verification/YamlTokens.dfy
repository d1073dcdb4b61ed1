/** The token stream of the YAML scanner: what is true of the tokens delivered so far
    followed by those still queued, and of the places where a simple key may begin. */
module YamlTokens {
  import opened YamlStates

  /** A position in the text. */
  datatype Mark = Mark(index: nat, line: nat, column: nat)

  /** A token with the places where it starts and ends. */
  datatype Lexeme = Lexeme(token: Token, start: Mark, end: Mark)

  /** A token without any text of its own. */
  function Mere(token: Token, at: Mark): Lexeme {
    Lexeme(token, at, at)
  }

  /** A place where a simple key may have started: `number` counts the tokens before it,
      from the start of the stream. */
  datatype SimpleKey = SimpleKey(possible: bool, required: bool, number: nat, mark: Mark)

  const NO_KEY := SimpleKey(false, false, 0, Mark(0, 0, 0))

  /** a is strictly before b; on one line, also by column. */
  predicate Before(a: Mark, b: Mark) {
    a.index < b.index && a.line <= b.line && (a.line == b.line ==> a.column < b.column)
  }

  /** The scanner may have moved from a to b. */
  predicate Reaches(a: Mark, b: Mark) {
    a.index <= b.index && a.line <= b.line && (a.line == b.line ==> a.column <= b.column)
  }

  // ---------- the stream of tokens ----------

  predicate Opens(t: Token) {
    t == BlockSequenceStart || t == BlockMappingStart
  }

  /** What must come right after the start of a block collection. */
  predicate Heads(o: Token, t: Token) {
    if o == BlockSequenceStart then t == BlockEntry else t == Key || t == Value
  }

  /** The tokens that a simple key can begin with. */
  predicate StartsKey(t: Token) {
    t == FlowSequenceStart || t == FlowMappingStart || t.AliasToken? || t.Anchor? || t.Tag? || t.ScalarToken?
  }

  function Step(t: Token): int {
    if Opens(t) then 1 else if t == BlockEnd then -1 else 0
  }

  /** The block collections that are open after these tokens. */
  function Depth(ts: seq<Lexeme>): int {
    if ts == [] then 0 else Depth(ts[..|ts| - 1]) + Step(ts[|ts| - 1].token)
  }

  /** No block collection ends that has not started. */
  ghost predicate Nested(ts: seq<Lexeme>) {
    forall i :: 0 <= i <= |ts| ==> 0 <= Depth(ts[..i])
  }

  /** The tokens come in the order of the text. */
  ghost predicate InOrder(ts: seq<Lexeme>) {
    forall i, j :: 0 <= i < j < |ts| ==> Reaches(ts[i].start, ts[j].start)
  }

  ghost predicate UpTo(ts: seq<Lexeme>, mark: Mark) {
    forall i :: 0 <= i < |ts| ==> Reaches(ts[i].start, mark)
  }

  /** Each block collection starts where its first entry does. */
  ghost predicate Headed(ts: seq<Lexeme>) {
    forall i :: 0 <= i < |ts| && Opens(ts[i].token) ==>
      i + 1 < |ts| && Heads(ts[i].token, ts[i + 1].token) && ts[i].start == ts[i + 1].start
  }

  predicate Ended(ts: seq<Lexeme>) {
    ts != [] && ts[|ts| - 1].token == StreamEndToken
  }

  /** The stream starts once and ends at most once, with nothing before or after. */
  ghost predicate Framed(ts: seq<Lexeme>) {
    forall i :: 0 <= i < |ts| ==>
      (ts[i].token == StreamStartToken <==> i == 0) && (ts[i].token == StreamEndToken ==> i == |ts| - 1)
  }

  /** What holds of all tokens so far: `depth` block collections are open, and the scanner
      has come to `mark`. */
  ghost predicate Story(ts: seq<Lexeme>, mark: Mark, depth: int) {
    ts != [] && InOrder(ts) && UpTo(ts, mark) && Headed(ts) && Framed(ts) && Nested(ts) && Depth(ts) == depth
  }

  lemma {:induction false} DepthAppend(a: seq<Lexeme>, b: seq<Lexeme>)
    ensures Depth(a + b) == Depth(a) + Depth(b)
  {
    if b == [] {
      assert a + b == a;
    } else {
      var n := |b| - 1;
      assert (a + b)[..|a + b| - 1] == a + b[..n];
      DepthAppend(a, b[..n]);
    }
  }

  lemma {:induction false} DepthOne(t: Lexeme)
    ensures Depth([t]) == Step(t.token)
  {
    assert [t][..0] == [];
    assert Depth([t]) == Depth([t][..0]) + Step(t.token);
  }

  lemma {:induction false} NestedAppend(ts: seq<Lexeme>, t: Lexeme)
    requires Nested(ts) && 0 <= Depth(ts) + Step(t.token)
    ensures Nested(ts + [t]) && Depth(ts + [t]) == Depth(ts) + Step(t.token)
  {
    var all := ts + [t];
    assert all[..|ts|] == ts;
    forall i | 0 <= i <= |all|
      ensures 0 <= Depth(all[..i])
    {
      if i <= |ts| {
        assert all[..i] == ts[..i];
      } else {
        assert all[..i] == all;
      }
    }
  }

  /** Tokens that close nothing, put at any place. */
  lemma {:induction false} NestedInsert(ts: seq<Lexeme>, n: nat, xs: seq<Lexeme>)
    requires Nested(ts) && n <= |ts| && forall i :: 0 <= i < |xs| ==> xs[i].token != BlockEnd
    ensures Nested(ts[..n] + xs + ts[n..]) && Depth(ts[..n] + xs + ts[n..]) == Depth(ts) + Depth(xs)
  {
    hide Depth;
    var all := ts[..n] + xs + ts[n..];
    assert ts[..|ts|] == ts && all[..|all|] == all;
    PrefixInsert(ts, n, xs, |all|);
    forall i | 0 <= i <= |all|
      ensures 0 <= Depth(all[..i])
    {
      PrefixInsert(ts, n, xs, i);
    }
  }

  lemma {:induction false} PrefixInsert(ts: seq<Lexeme>, n: nat, xs: seq<Lexeme>, i: nat)
    requires n <= |ts| && i <= |ts| + |xs| && forall i :: 0 <= i < |xs| ==> xs[i].token != BlockEnd
    ensures var all := ts[..n] + xs + ts[n..];
            if i < n then Depth(all[..i]) == Depth(ts[..i])
            else if i < n + |xs| then Depth(all[..i]) >= Depth(ts[..n])
            else Depth(all[..i]) == Depth(ts[..i - |xs|]) + Depth(xs) >= Depth(ts[..i - |xs|])
  {
    hide Depth;
    var all := ts[..n] + xs + ts[n..];
    OnlyUp(xs);
    if i < n {
      assert all[..i] == ts[..i];
    } else if i < n + |xs| {
      assert all[..i] == ts[..n] + xs[..i - n];
      DepthAppend(ts[..n], xs[..i - n]);
      OnlyUp(xs[..i - n]);
    } else {
      var k := i - |xs|;
      assert all[..i] == ts[..n] + xs + ts[n..k];
      DepthAppend(ts[..n] + xs, ts[n..k]);
      DepthAppend(ts[..n], xs);
      assert ts[..k] == ts[..n] + ts[n..k];
      DepthAppend(ts[..n], ts[n..k]);
    }
  }

  lemma {:induction false} OnlyUp(xs: seq<Lexeme>)
    requires forall i :: 0 <= i < |xs| ==> xs[i].token != BlockEnd
    ensures 0 <= Depth(xs)
  {
    if xs != [] {
      OnlyUp(xs[..|xs| - 1]);
    }
  }

  /** One more token, read where the scanner stands. */
  lemma {:induction false} StoryAppend(ts: seq<Lexeme>, at: Mark, depth: int, t: Lexeme, mark: Mark)
    requires Story(ts, at, depth) && !Ended(ts) && Reaches(at, t.start) && Reaches(t.start, mark)
    requires !Opens(t.token) && t.token != StreamStartToken && 0 <= depth + Step(t.token)
    ensures Story(ts + [t], mark, depth + Step(t.token))
  {
    hide Depth, Nested;
    NestedAppend(ts, t);
  }

  /** The start of a block collection together with its first entry. */
  lemma {:induction false} StoryOpen(ts: seq<Lexeme>, at: Mark, depth: int, o: Lexeme, t: Lexeme, mark: Mark)
    requires Story(ts, at, depth) && !Ended(ts) && Reaches(at, t.start) && Reaches(t.start, mark)
    requires Opens(o.token) && Heads(o.token, t.token) && o.start == t.start
    ensures Story(ts + [o] + [t], mark, depth + 1)
  {
    hide Depth, Nested;
    assert Nested(ts) && Depth(ts) == depth && 0 <= depth by {
      Bottom(ts);
    }
    NestedAppend(ts, o);
    NestedAppend(ts + [o], t);
  }

  lemma {:induction false} Bottom(ts: seq<Lexeme>)
    requires Nested(ts)
    ensures 0 <= Depth(ts)
  {
    assert ts[..|ts|] == ts;
  }

  /** A KEY, or a KEY and the start of its mapping, put before the token where the key began. */
  lemma {:induction false} StoryInsert(ts: seq<Lexeme>, mark: Mark, depth: int, n: nat, xs: seq<Lexeme>)
    requires Story(ts, mark, depth) && n < |ts| && StartsKey(ts[n].token)
    requires xs == [Mere(Key, ts[n].start)] || xs == [Mere(BlockMappingStart, ts[n].start), Mere(Key, ts[n].start)]
    ensures Story(ts[..n] + xs + ts[n..], mark, depth + |xs| - 1)
  {
    hide Depth, Nested, InOrder, UpTo, Headed, Framed;
    assert Depth(xs) == |xs| - 1 by {
      DepthOne(xs[0]);
      if |xs| == 2 {
        DepthOne(xs[1]);
        assert xs == [xs[0]] + [xs[1]];
        DepthAppend([xs[0]], [xs[1]]);
      }
    }
    NestedInsert(ts, n, xs);
    OrderInsert(ts, mark, n, xs);
    HeadedInsert(ts, n, xs);
    FramedInsert(ts, n, xs);
  }

  lemma {:induction false} OrderInsert(ts: seq<Lexeme>, mark: Mark, n: nat, xs: seq<Lexeme>)
    requires InOrder(ts) && UpTo(ts, mark) && n < |ts|
    requires forall i :: 0 <= i < |xs| ==> xs[i].start == ts[n].start
    ensures InOrder(ts[..n] + xs + ts[n..]) && UpTo(ts[..n] + xs + ts[n..], mark)
  {
    var all := ts[..n] + xs + ts[n..];
    forall i | 0 <= i < |all|
      ensures all[i].start == ts[Place(n, |xs|, i)].start
    {
    }
    forall i, j | 0 <= i < j < |all|
      ensures Reaches(all[i].start, all[j].start)
    {
      assert Place(n, |xs|, i) <= Place(n, |xs|, j);
    }
  }

  /** The token that tells where the token at i starts, when m tokens are put at n. */
  function Place(n: nat, m: nat, i: nat): nat {
    if i < n then i else if i < n + m then n else i - m
  }

  lemma {:induction false} HeadedInsert(ts: seq<Lexeme>, n: nat, xs: seq<Lexeme>)
    requires Headed(ts) && n < |ts| && StartsKey(ts[n].token)
    requires xs == [Mere(Key, ts[n].start)] || xs == [Mere(BlockMappingStart, ts[n].start), Mere(Key, ts[n].start)]
    ensures Headed(ts[..n] + xs + ts[n..])
  {
    var all := ts[..n] + xs + ts[n..];
    forall i | 0 <= i < |all| && Opens(all[i].token)
      ensures i + 1 < |all| && Heads(all[i].token, all[i + 1].token) && all[i].start == all[i + 1].start
    {
      if i < n {
        assert all[i] == ts[i] && i + 1 < n;
        assert all[i + 1] == ts[i + 1];
      } else if n + |xs| <= i {
        assert all[i] == ts[i - |xs|] && all[i + 1] == ts[i - |xs| + 1];
      }
    }
  }

  lemma {:induction false} FramedInsert(ts: seq<Lexeme>, n: nat, xs: seq<Lexeme>)
    requires Framed(ts) && n < |ts| && StartsKey(ts[n].token)
    requires forall i :: 0 <= i < |xs| ==> xs[i].token != StreamStartToken && xs[i].token != StreamEndToken
    ensures Framed(ts[..n] + xs + ts[n..])
  {
    var all := ts[..n] + xs + ts[n..];
    assert 0 < n;
    forall i | 0 <= i < |all|
      ensures (all[i].token == StreamStartToken <==> i == 0) && (all[i].token == StreamEndToken ==> i == |all| - 1)
    {
      if i < n {
        assert all[i] == ts[i];
      } else if n + |xs| <= i {
        assert all[i] == ts[i - |xs|];
      }
    }
  }

  // ---------- flow collections ----------

  /** The flow collections that are open after these tokens; an end without a start is
      ignored. */
  function Flow(ts: seq<Lexeme>): nat {
    if ts == [] then 0 else Flowed(Flow(ts[..|ts| - 1]), ts[|ts| - 1].token)
  }

  function Flowed(n: nat, t: Token): nat {
    if t == FlowSequenceStart || t == FlowMappingStart then n + 1
    else if (t == FlowSequenceEnd || t == FlowMappingEnd) && n > 0 then n - 1
    else n
  }

  lemma {:induction false} FlowAppend(ts: seq<Lexeme>, t: Lexeme)
    ensures Flow(ts + [t]) == Flowed(Flow(ts), t.token)
  {
    assert (ts + [t])[..|ts|] == ts;
  }

  lemma {:induction false} FlowSame(a: seq<Lexeme>, b: seq<Lexeme>, c: seq<Lexeme>)
    requires Flow(a) == Flow(b)
    ensures Flow(a + c) == Flow(b + c)
  {
    hide Flow;
    if c == [] {
      assert a + c == a && b + c == b;
    } else {
      var n := |c| - 1;
      FlowSame(a, b, c[..n]);
      FlowAppend(a + c[..n], c[n]);
      FlowAppend(b + c[..n], c[n]);
      assert a + c == a + c[..n] + [c[n]] && b + c == b + c[..n] + [c[n]];
    }
  }

  lemma {:induction false} FlowInsert(ts: seq<Lexeme>, n: nat, xs: seq<Lexeme>)
    requires n <= |ts| && forall i :: 0 <= i < |xs| ==> xs[i].token == Key || xs[i].token == BlockMappingStart
    ensures Flow(ts[..n] + xs + ts[n..]) == Flow(ts)
  {
    hide Flow;
    FlowQuiet(ts[..n], xs);
    FlowSame(ts[..n] + xs, ts[..n], ts[n..]);
    assert ts[..n] + ts[n..] == ts;
  }

  lemma {:induction false} FlowQuiet(a: seq<Lexeme>, xs: seq<Lexeme>)
    requires forall i :: 0 <= i < |xs| ==> xs[i].token == Key || xs[i].token == BlockMappingStart
    ensures Flow(a + xs) == Flow(a)
  {
    hide Flow;
    if xs == [] {
      assert a + xs == a;
    } else {
      var n := |xs| - 1;
      FlowQuiet(a, xs[..n]);
      FlowAppend(a + xs[..n], xs[n]);
      assert a + xs == a + xs[..n] + [xs[n]];
    }
  }

  // ---------- the possible simple keys ----------

  /** The number of a possible key still names the token that begins at its mark, and that
      token is not delivered yet. */
  predicate KeyOk(k: SimpleKey, all: seq<Lexeme>, parsed: nat, mark: Mark) {
    k.possible ==>
      parsed <= k.number < |all| && all[k.number].start == k.mark && StartsKey(all[k.number].token) &&
      Before(k.mark, mark)
  }

  /** The possible keys, one for each flow level: inner ones begin at later tokens. */
  ghost predicate Keys(ks: seq<SimpleKey>, all: seq<Lexeme>, parsed: nat, mark: Mark) {
    (forall i :: 0 <= i < |ks| ==> KeyOk(ks[i], all, parsed, mark)) &&
    (forall i, j :: 0 <= i < j < |ks| && ks[i].possible && ks[j].possible ==> ks[i].number < ks[j].number)
  }

  /** No possible key is in the way of the next token. */
  ghost predicate Clear(ks: seq<SimpleKey>, parsed: nat) {
    forall i :: 0 <= i < |ks| && ks[i].possible ==> ks[i].number != parsed
  }

  ghost predicate AllBehind(ks: seq<SimpleKey>, mark: Mark) {
    forall i :: 0 <= i < |ks| && ks[i].possible ==> ks[i].mark.line < mark.line
  }

  lemma {:induction false} KeysAppend(ks: seq<SimpleKey>, all: seq<Lexeme>, parsed: nat, at: Mark, more: seq<Lexeme>,
                                      mark: Mark)
    requires Keys(ks, all, parsed, at) && Reaches(at, mark)
    ensures Keys(ks, all + more, parsed, mark)
  {
  }

  /** Keys can only be given up, from the innermost level or anywhere. */
  lemma {:induction false} KeysFewer(ks: seq<SimpleKey>, fewer: seq<SimpleKey>, all: seq<Lexeme>, parsed: nat,
                                     mark: Mark)
    requires Keys(ks, all, parsed, mark) && |fewer| <= |ks|
    requires forall i :: 0 <= i < |fewer| ==> fewer[i].possible ==> fewer[i] == ks[i]
    ensures Keys(fewer, all, parsed, mark)
  {
    assert forall i :: 0 <= i < |fewer| && fewer[i].possible ==> KeyOk(ks[i], all, parsed, mark);
  }

  /** A key saved on the innermost level, or the one already there, together with the token
      that begins here. */
  lemma {:induction false} KeysSave(ks: seq<SimpleKey>, all: seq<Lexeme>, parsed: nat, at: Mark, k: SimpleKey,
                                    t: Lexeme, mark: Mark)
    requires Keys(ks, all, parsed, at) && Reaches(at, mark) && ks != [] && parsed <= |all|
    requires k == ks[|ks| - 1] ||
             (k.number == |all| && k.mark == t.start && StartsKey(t.token) && Before(k.mark, mark))
    ensures Keys(ks[|ks| - 1 := k], all + [t], parsed, mark)
  {
    KeysAppend(ks, all, parsed, at, [t], mark);
    if k == ks[|ks| - 1] {
      assert ks[|ks| - 1 := k] == ks;
      return;
    }
    var next := ks[|ks| - 1 := k];
    forall i | 0 <= i < |next|
      ensures KeyOk(next[i], all + [t], parsed, mark)
    {
      if i < |ks| - 1 {
        assert next[i] == ks[i];
      }
    }
    forall i, j | 0 <= i < j < |next| && next[i].possible && next[j].possible
      ensures next[i].number < next[j].number
    {
      assert KeyOk(ks[i], all, parsed, at);
    }
  }

  lemma {:induction false} KeysPush(ks: seq<SimpleKey>, all: seq<Lexeme>, parsed: nat, mark: Mark)
    requires Keys(ks, all, parsed, mark)
    ensures Keys(ks + [NO_KEY], all, parsed, mark)
  {
    var next := ks + [NO_KEY];
    forall i | 0 <= i < |next|
      ensures KeyOk(next[i], all, parsed, mark)
    {
      if i < |ks| {
        assert next[i] == ks[i];
      }
    }
  }

  /** Tokens put where the innermost key began leave the other keys where they are. */
  lemma {:induction false} KeysInsert(ks: seq<SimpleKey>, all: seq<Lexeme>, parsed: nat, mark: Mark, xs: seq<Lexeme>)
    requires Keys(ks, all, parsed, mark) && ks != [] && ks[|ks| - 1].possible && ks[|ks| - 1].number <= |all|
    ensures var k := ks[|ks| - 1];
            Keys(ks[|ks| - 1 := k.(possible := false)], all[..k.number] + xs + all[k.number..], parsed, mark)
  {
    var k := ks[|ks| - 1];
    var next := ks[|ks| - 1 := k.(possible := false)];
    var longer := all[..k.number] + xs + all[k.number..];
    forall i | 0 <= i < |next|
      ensures KeyOk(next[i], longer, parsed, mark)
    {
      if i < |ks| - 1 {
        assert next[i] == ks[i] && KeyOk(ks[i], all, parsed, mark);
        if ks[i].possible {
          assert ks[i].number < k.number && longer[ks[i].number] == all[ks[i].number];
        }
      }
    }
  }

  /** Where the text ends, a new line begins: no key on an earlier line can be completed. */
  lemma {:induction false} BehindEnd(ks: seq<SimpleKey>, all: seq<Lexeme>, parsed: nat, mark: Mark)
    requires Keys(ks, all, parsed, mark)
    ensures AllBehind(ks, if mark.column != 0 then Mark(mark.index, mark.line + 1, 0) else mark)
  {
    forall i | 0 <= i < |ks| && ks[i].possible
      ensures ks[i].mark.line < (if mark.column != 0 then mark.line + 1 else mark.line)
    {
      assert KeyOk(ks[i], all, parsed, mark);
    }
  }

  // ---------- the indentation levels ----------

  /** Levels grow from -1, the level outside every block collection. */
  ghost predicate Levels(indents: seq<int>, indent: int) {
    var ls := indents + [indent];
    ls[0] == -1 && forall i, j :: 0 <= i < j < |ls| ==> ls[i] < ls[j]
  }

  lemma {:induction false} LevelsPush(indents: seq<int>, indent: int, column: int)
    requires Levels(indents, indent) && indent < column
    ensures Levels(indents + [indent], column)
  {
    var ls := indents + [indent];
    assert ls[|indents|] == indent;
    forall i, j | 0 <= i < j < |ls + [column]|
      ensures (ls + [column])[i] < (ls + [column])[j]
    {
      if j == |ls| && i < |indents| {
        assert ls[i] < ls[|indents|];
      }
    }
  }

  lemma {:induction false} LevelsBottom(indents: seq<int>, indent: int)
    requires Levels(indents, indent) && indent <= -1
    ensures indents == []
  {
    var ls := indents + [indent];
    assert ls[0] == -1 && ls[|indents|] == indent;
  }

  lemma {:induction false} LevelsPop(indents: seq<int>, indent: int)
    requires Levels(indents, indent) && -1 < indent
    ensures indents != [] && indents[|indents| - 1] < indent
    ensures Levels(indents[..|indents| - 1], indents[|indents| - 1])
    ensures indents[..|indents| - 1] + [indents[|indents| - 1]] == indents
  {
    var ls := indents + [indent];
    assert ls[0] == -1;
    var n := |indents|;
    assert ls[n - 1] < ls[n];
    assert indents[..n - 1] + [indents[n - 1]] == indents;
    assert forall i :: 0 <= i < n ==> indents[i] == ls[i];
  }
}
