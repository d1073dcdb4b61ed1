/** The event parser accepts nothing but documents: what it reads to the end of a stream is
    the writing of some documents. */
module YamlAccepts {
  import opened Basics
  import opened YamlNodes
  import opened YamlGrammar
  import opened YamlStates
  import opened YamlRender
  import opened YamlStreams

  /** From here the parser comes to the end of the stream. */
  ghost predicate Alive(p: Parsing) {
    !Calls(p).failed
  }

  ghost predicate Lives(m: Move) {
    m.Move? && Alive(m.next)
  }

  predicate Inside(s: State) {
    s !in {AtStreamStart, AtImplicitDocument, AtDocument, AtEnd}
  }

  lemma {:induction false} Goes(p: Parsing)
    requires Alive(p) && Inside(p.state)
    ensures Lives(InsideMove(p))
  {
    hide InsideMove, Calls;
    CallsStep(p);
  }

  // ---------- one node ----------

  /** Anchor and tag as they were written. */
  lemma {:induction false} PropsMarked(ts: seq<Token>, ds: seq<Directive>) returns (m: Marks)
    requires ResolveTag(ds, ReadProps(ts)).Some?
    ensures var props := ReadProps(ts);
      && ts == Marked(m) + ts[props.count..] && Meant(ds, m)
      && m.name == props.anchor && ResolveTag(ds, props) == Some(TagOf(m))
  {
    var props := ReadProps(ts);
    var tag := ResolveTag(ds, props).value;
    var spelling := if props.handle.None? then None else Some(Spelling(tag.value, props.handle.value, props.suffix));
    m := Marks(props.anchor, spelling, ts != [] && ts[0].Tag?);
    assert Marked(m) == ts[..props.count];
  }

  /** Tokens of a node, and what comes behind it. */
  lemma {:induction false} NodeSound(p: Parsing, block: bool, indentless: bool) returns (t: Styled, rest: seq<Token>)
    requires Lives(NodeMove(p, block, indentless)) && (indentless ==> block)
    ensures Fit(t, p.directives, !block, indentless) && p.tokens == Tokens(t) + rest
    ensures Alive(Popped(p.(tokens := rest)))
    decreases |p.tokens|, 5
  {
    hide Alive, ContentMove, ReadProps, ResolveTag, Marked;
    if p.tokens[0].AliasToken? {
      t, rest := Ref(p.tokens[0].anchor), p.tokens[1..];
      assert p.tokens == [p.tokens[0]] + rest;
    } else {
      var m := PropsMarked(p.tokens, p.directives);
      var q := p.(tokens := p.tokens[ReadProps(p.tokens).count..]);
      hide Tokens, Fit;
      t, rest := ContentSound(q, m, block, indentless);
    }
  }

  lemma {:induction false} ContentSound(q: Parsing, m: Marks, block: bool, indentless: bool)
    returns (t: Styled, rest: seq<Token>)
    requires Lives(ContentMove(q, m.name, TagOf(m), block, indentless)) && (indentless ==> block)
    requires Meant(q.directives, m)
    ensures Fit(t, q.directives, !block, indentless) && Marked(m) + q.tokens == Tokens(t) + rest
    ensures Alive(Popped(q.(tokens := rest)))
    decreases |q.tokens|, 4
  {
    hide Alive, Marked, Meant, Items, Entries, Pairs, FitAll, FitItems, FitPairs, InsideMove;
    var c := q.tokens[0];
    var body := q.tokens[1..];
    assert q.tokens == [c] + body;
    if indentless && c == BlockEntry {
      t, rest := IndentlessNode(q, m);
    } else if c.ScalarToken? {
      t, rest := Text(m, c.text), body;
      Split(Marked(m), [c], body);
    } else if c == FlowSequenceStart {
      t, rest := FlowListNode(q, m, body, !block, indentless);
    } else if c == FlowMappingStart {
      t, rest := FlowDictNode(q, m, body, !block, indentless);
    } else if block && c == BlockSequenceStart {
      t, rest := BlockListNode(q, m, body, indentless);
    } else if block && c == BlockMappingStart {
      t, rest := BlockDictNode(q, m, body, indentless);
    } else {
      t, rest := Hollow(m), q.tokens;
    }
  }

  lemma {:induction false} Split(a: seq<Token>, b: seq<Token>, c: seq<Token>)
    ensures a + (b + c) == a + b + c
  {
  }

  lemma {:induction false} FlowListNode(q: Parsing, m: Marks, body: seq<Token>, flow: bool, indentless: bool)
    returns (t: Styled, rest: seq<Token>)
    requires q.tokens == [FlowSequenceStart] + body && Meant(q.directives, m)
    requires Alive(q.(state := FlowSequenceFirst))
    ensures Fit(t, q.directives, flow, indentless) && Marked(m) + q.tokens == Tokens(t) + rest
    ensures Alive(Popped(q.(tokens := rest)))
    decreases |q.tokens|, 3
  {
    hide Alive, InsideMove, Marked, Meant, Items, FitItems, FlowSequenceMove, Comma;
    Goes(q.(state := FlowSequenceFirst));
    FlowListOpens(q, body);
    var ts, comma;
    ts, comma, rest := ItemsSound(q.(tokens := body, state := FlowSequenceEntry), true);
    t := List(Flow(comma), m, ts);
    YamlRender.Regroup(Marked(m), FlowSequenceStart, Items(ts, true) + (Comma(!comma) + [FlowSequenceEnd]), rest);
  }

  lemma {:induction false} FlowDictNode(q: Parsing, m: Marks, body: seq<Token>, flow: bool, indentless: bool)
    returns (t: Styled, rest: seq<Token>)
    requires q.tokens == [FlowMappingStart] + body && Meant(q.directives, m)
    requires Alive(q.(state := FlowMappingFirst))
    ensures Fit(t, q.directives, flow, indentless) && Marked(m) + q.tokens == Tokens(t) + rest
    ensures Alive(Popped(q.(tokens := rest)))
    decreases |q.tokens|, 3
  {
    hide Alive, InsideMove, Marked, Meant, Items, FitPairs, FlowKeyMove, Comma;
    Goes(q.(state := FlowMappingFirst));
    FlowDictOpens(q, body);
    var ts, comma;
    ts, comma, rest := FlowPairsSound(q.(tokens := body, state := FlowMappingKey), true);
    t := Dict(Flow(comma), m, ts);
    YamlRender.Regroup(Marked(m), FlowMappingStart, Items(ts, true) + (Comma(!comma) + [FlowMappingEnd]), rest);
  }

  lemma {:induction false} BlockListNode(q: Parsing, m: Marks, body: seq<Token>, indentless: bool)
    returns (t: Styled, rest: seq<Token>)
    requires q.tokens == [BlockSequenceStart] + body && Meant(q.directives, m)
    requires Alive(q.(state := BlockSequenceFirst))
    ensures Fit(t, q.directives, false, indentless) && Marked(m) + q.tokens == Tokens(t) + rest
    ensures Alive(Popped(q.(tokens := rest)))
    decreases |q.tokens|, 3
  {
    hide Alive, InsideMove, Marked, Meant, Entries, FitAll, BlockSequenceMove;
    Goes(q.(state := BlockSequenceFirst));
    BlockListOpens(q, body);
    var ts;
    ts, rest := EntriesSound(q.(tokens := body, state := BlockSequenceEntry));
    t := List(Block, m, ts);
    YamlRender.Regroup(Marked(m), BlockSequenceStart, Entries(ts) + [BlockEnd], rest);
  }

  lemma {:induction false} BlockDictNode(q: Parsing, m: Marks, body: seq<Token>, indentless: bool)
    returns (t: Styled, rest: seq<Token>)
    requires q.tokens == [BlockMappingStart] + body && Meant(q.directives, m)
    requires Alive(q.(state := BlockMappingFirst))
    ensures Fit(t, q.directives, false, indentless) && Marked(m) + q.tokens == Tokens(t) + rest
    ensures Alive(Popped(q.(tokens := rest)))
    decreases |q.tokens|, 3
  {
    hide Alive, InsideMove, Marked, Meant, Pairs, FitPairs, BlockKeyMove;
    Goes(q.(state := BlockMappingFirst));
    BlockDictOpens(q, body);
    var ts;
    ts, rest := PairsSound(q.(tokens := body, state := BlockMappingKey));
    t := Dict(Block, m, ts);
    YamlRender.Regroup(Marked(m), BlockMappingStart, Pairs(ts) + [BlockEnd], rest);
  }

  lemma {:induction false} IndentlessNode(q: Parsing, m: Marks) returns (t: Styled, rest: seq<Token>)
    requires q.tokens != [] && q.tokens[0] == BlockEntry && Meant(q.directives, m)
    requires Alive(q.(state := IndentlessEntry))
    ensures Fit(t, q.directives, false, true) && Marked(m) + q.tokens == Tokens(t) + rest
    ensures Alive(Popped(q.(tokens := rest)))
    decreases |q.tokens|, 3
  {
    hide Alive, InsideMove, Marked, Meant, Entries, FitAll, IndentlessMove;
    Goes(q.(state := IndentlessEntry));
    IndentlessOpens(q.(state := IndentlessEntry));
    var ts;
    ts, rest := IndentlessSound(q.(state := IndentlessEntry));
    t := List(Indentless, m, ts);
    Split(Marked(m), Entries(ts), rest);
  }

  // ---------- the children of a collection ----------

  lemma {:induction false} ChildSound(p: Parsing, next: State, block: bool, indentless: bool)
    returns (t: Styled, rest: seq<Token>)
    requires Lives(Nest(p, next, block, indentless)) && (indentless ==> block)
    ensures Fit(t, p.directives, !block, indentless) && p.tokens == Tokens(t) + rest && |rest| < |p.tokens|
    ensures Alive(p.(state := next, tokens := rest))
    decreases |p.tokens|, 6
  {
    hide Alive, NodeMove, Fit, Tokens;
    t, rest := NodeSound(p.(states := p.states + [next]), block, indentless);
    Returned(p, next, rest);
    Opening(t, p.directives, !block, indentless);
  }

  /** The entries of a block sequence. */
  lemma {:induction false} EntriesSound(q: Parsing) returns (ts: seq<Styled>, rest: seq<Token>)
    requires Lives(BlockSequenceMove(q)) && q.state == BlockSequenceEntry
    ensures FitAll(ts, q.directives) && q.tokens == Entries(ts) + [BlockEnd] + rest
    ensures Alive(Popped(q.(tokens := rest)))
    decreases |q.tokens|, 8
  {
    hide Alive, InsideMove, Nest, Fit, Tokens;
    assert q.tokens == [q.tokens[0]] + q.tokens[1..];
    if q.tokens[0] == BlockEnd {
      ts, rest := [], q.tokens[1..];
      assert Entries(ts) + [BlockEnd] + rest == [BlockEnd] + rest;
    } else {
      var t, tail := EntrySound(q);
      var more;
      more, rest := EntriesSound(q.(tokens := tail));
      ts := [t] + more;
      assert ts[1..] == more;
      EntryFirst(t, more, [BlockEnd], rest);
    }
  }

  lemma {:induction false} EntryFirst(t: Styled, more: seq<Styled>, end: seq<Token>, rest: seq<Token>)
    ensures Entries([t] + more) + end + rest == [BlockEntry] + (Tokens(t) + (Entries(more) + end + rest))
  {
    hide Tokens;
    assert ([t] + more)[1..] == more && ([t] + more)[0] == t;
    var a, b := Tokens(t), Entries(more);
    assert [BlockEntry] + (a + b) + end + rest == [BlockEntry] + (a + (b + end + rest));
  }

  lemma {:induction false} EntrySound(q: Parsing) returns (t: Styled, tail: seq<Token>)
    requires Lives(BlockSequenceMove(q)) && q.state == BlockSequenceEntry && Sees(q, BlockEntry)
    ensures (t == Left || Fit(t, q.directives, false, false)) && q.tokens == [BlockEntry] + (Tokens(t) + tail)
    ensures Lives(BlockSequenceMove(q.(tokens := tail)))
    decreases |q.tokens|, 7
  {
    hide Alive, InsideMove, Fit, Nest;
    var q1 := Rest(q);
    assert q.tokens == [BlockEntry] + q1.tokens;
    if Sees(q1, BlockEntry) || Sees(q1, BlockEnd) {
      t, tail := Left, q1.tokens;
      assert Tokens(t) + tail == tail;
    } else {
      hide Tokens;
      t, tail := ChildSound(q1, BlockSequenceEntry, true, false);
    }
    Goes(q.(tokens := tail));
    BlockEntryState(q.(tokens := tail));
  }

  lemma {:induction false} BlockEntryState(q: Parsing)
    requires q.state == BlockSequenceEntry
    ensures InsideMove(q) == BlockSequenceMove(q)
  {
    hide BlockSequenceMove;
  }

  /** The entries of a sequence without indentation, as long as they come. */
  lemma {:induction false} IndentlessSound(q: Parsing) returns (ts: seq<Styled>, rest: seq<Token>)
    requires Lives(IndentlessMove(q)) && q.state == IndentlessEntry
    ensures FitAll(ts, q.directives) && q.tokens == Entries(ts) + rest && (Sees(q, BlockEntry) ==> ts != [])
    ensures Alive(Popped(q.(tokens := rest)))
    decreases |q.tokens|, 2
  {
    hide Alive, InsideMove, Nest, Fit, Tokens;
    if q.tokens[0] != BlockEntry {
      ts, rest := [], q.tokens;
      assert Entries(ts) + rest == rest;
    } else {
      var t, tail := IndentlessEntrySound(q);
      var more;
      more, rest := IndentlessSound(q.(tokens := tail));
      ts := [t] + more;
      assert ts[1..] == more;
      EntryFirst(t, more, [], rest);
      assert Entries(ts) + [] == Entries(ts) && Entries(more) + [] == Entries(more);
    }
  }

  lemma {:induction false} IndentlessEntrySound(q: Parsing) returns (t: Styled, tail: seq<Token>)
    requires Lives(IndentlessMove(q)) && q.state == IndentlessEntry && Sees(q, BlockEntry)
    ensures (t == Left || Fit(t, q.directives, false, false)) && q.tokens == [BlockEntry] + (Tokens(t) + tail)
    ensures Lives(IndentlessMove(q.(tokens := tail)))
    decreases |q.tokens|, 1
  {
    hide Alive, InsideMove, Fit, Nest;
    var q1 := Rest(q);
    assert q.tokens == [BlockEntry] + q1.tokens;
    if Sees(q1, BlockEntry) || Sees(q1, Key) || Sees(q1, Value) || Sees(q1, BlockEnd) {
      t, tail := Left, q1.tokens;
      assert Tokens(t) + tail == tail;
    } else {
      hide Tokens;
      t, tail := ChildSound(q1, IndentlessEntry, true, false);
    }
    Goes(q.(tokens := tail));
    IndentlessOpens(q.(tokens := tail));
  }

  // ---------- pairs ----------

  /** What is written behind the key of a pair. */
  function Second(written: bool, v: Styled): seq<Token> {
    if written then [Value] + Tokens(v) else []
  }

  lemma {:induction false} PairWritten(k: Styled, written: bool, v: Styled, tail: seq<Token>)
    requires !written ==> v == Left
    ensures var t := Styled.Pair(if written then Full else KeyOnly, k, v);
      Tokens(t) + tail == [Key] + (Tokens(k) + (Second(written, v) + tail))
  {
    var a, b := Tokens(k), Tokens(v);
    var t := Styled.Pair(if written then Full else KeyOnly, k, v);
    assert Tokens(t) == [Key] + (a + Second(written, v)) by {
      assert a + [] == a;
    }
    hide Tokens;
    var c := Second(written, v);
    assert [Key] + (a + c) + tail == [Key] + (a + (c + tail));
  }

  /** The pairs of a block mapping. */
  lemma {:induction false} PairsSound(q: Parsing) returns (ts: seq<Styled>, rest: seq<Token>)
    requires Lives(BlockKeyMove(q)) && q.state == BlockMappingKey
    ensures FitPairs(ts, q.directives, false) && q.tokens == Pairs(ts) + [BlockEnd] + rest
    ensures Alive(Popped(q.(tokens := rest)))
    decreases |q.tokens|, 9
  {
    hide Alive, InsideMove, Nest, FitPair, Tokens;
    assert q.tokens == [q.tokens[0]] + q.tokens[1..];
    if q.tokens[0] == BlockEnd {
      ts, rest := [], q.tokens[1..];
      assert Pairs(ts) + [BlockEnd] + rest == [BlockEnd] + rest;
    } else {
      var t, tail := PairSound(q);
      var more;
      more, rest := PairsSound(q.(tokens := tail));
      ts := [t] + more;
      assert ts[1..] == more;
      Grouped(Tokens(t), Pairs(more), [BlockEnd], rest);
    }
  }

  lemma {:induction false} PairSound(q: Parsing) returns (t: Styled, tail: seq<Token>)
    requires Lives(BlockKeyMove(q)) && q.state == BlockMappingKey && Sees(q, Key)
    ensures FitPair(t, q.directives, false) && q.tokens == Tokens(t) + tail && |tail| < |q.tokens|
    ensures Lives(BlockKeyMove(q.(tokens := tail)))
    decreases |q.tokens|, 8
  {
    hide Alive, InsideMove, Fit, Nest, Tokens, BlockKeyMove;
    var k, mid := BlockKeySound(q);
    var written, v;
    written, v, tail := BlockValueSound(q.(state := BlockMappingValue, tokens := mid));
    t := Styled.Pair(if written then Full else KeyOnly, k, v);
    PairWritten(k, written, v, tail);
    Goes(q.(tokens := tail));
    BlockKeyState(q.(tokens := tail));
  }

  lemma {:induction false} BlockKeySound(q: Parsing) returns (k: Styled, mid: seq<Token>)
    requires Lives(BlockKeyMove(q)) && q.state == BlockMappingKey && Sees(q, Key)
    ensures (k == Left || Fit(k, q.directives, false, true)) && q.tokens == [Key] + (Tokens(k) + mid)
    ensures |mid| < |q.tokens| && Alive(q.(state := BlockMappingValue, tokens := mid))
    decreases |q.tokens|, 7
  {
    hide Alive, Fit, Nest;
    var q1 := Rest(q);
    assert q.tokens == [Key] + q1.tokens;
    if Sees(q1, Key) || Sees(q1, Value) || Sees(q1, BlockEnd) {
      k, mid := Left, q1.tokens;
      assert Tokens(k) + mid == mid;
    } else {
      hide Tokens;
      k, mid := ChildSound(q1, BlockMappingValue, true, true);
    }
  }

  lemma {:induction false} BlockValueSound(p: Parsing) returns (written: bool, v: Styled, tail: seq<Token>)
    requires Alive(p) && p.state == BlockMappingValue
    ensures (v == Left || (written && Fit(v, p.directives, false, true))) && p.tokens == Second(written, v) + tail
    ensures |tail| <= |p.tokens| && Alive(p.(state := BlockMappingKey, tokens := tail))
    decreases |p.tokens|, 7
  {
    hide Alive, Fit, Nest;
    Goes(p);
    written, v, tail := Sees(p, Value), Left, p.tokens;
    assert Tokens(v) == [];
    if written {
      var q := Rest(p);
      assert p.tokens == [Value] + q.tokens;
      tail := q.tokens;
      if !(Sees(q, Key) || Sees(q, Value) || Sees(q, BlockEnd)) {
        hide Tokens, InsideMove;
        v, tail := ChildSound(q, BlockMappingKey, true, true);
        Split([Value], Tokens(v), tail);
      }
    }
  }

  /** The pairs of a flow mapping, and whether a comma is behind the last. */
  lemma {:induction false} FlowPairsSound(q: Parsing, first: bool)
    returns (ts: seq<Styled>, comma: bool, rest: seq<Token>)
    requires Lives(FlowKeyMove(q, first)) && q.state == FlowMappingKey
    ensures FitPairs(ts, q.directives, true) && (ts == [] && first ==> !comma)
    ensures q.tokens == Items(ts, first) + (Comma(!comma) + [FlowMappingEnd]) + rest
    ensures Alive(Popped(q.(tokens := rest)))
    decreases |q.tokens|, 9
  {
    hide Alive, InsideMove, FlowPairMove, FitPair, Tokens, Separated;
    var q1 := Separated(q, first, FlowMappingEnd).value;
    var sep := SeparatedSound(q, first, FlowMappingEnd);
    if Sees(q1, FlowMappingEnd) {
      ts, comma, rest := [], sep, q1.tokens[1..];
      FlowEndSound(q1);
      assert q1.tokens == [FlowMappingEnd] + rest;
      LastItem(q.tokens, first, sep, FlowMappingEnd, rest);
    } else {
      var t, tail := FlowPairSound(q1);
      var more;
      more, comma, rest := FlowPairsSound(q.(tokens := tail), false);
      ts := [t] + more;
      assert ts[1..] == more;
      NextItem(q.tokens, first, sep, t, more, comma, FlowMappingEnd, rest);
    }
  }

  /** BehindStart a first entry there is a comma, unless the collection ends. */
  lemma {:induction false} SeparatedSound(q: Parsing, first: bool, end: Token) returns (sep: bool)
    requires Separated(q, first, end).Some? && end != FlowEntry
    ensures var q1 := Separated(q, first, end).value;
      && q1 == q.(tokens := q1.tokens) && q1.tokens != [] && q.tokens == Comma(!sep) + q1.tokens
      && (first ==> !sep) && (!first && !sep ==> q1.tokens[0] == end)
  {
    var q1 := Separated(q, first, end).value;
    sep := q1 != q;
    if sep {
      assert q.tokens == [FlowEntry] + q1.tokens;
    } else {
      assert q.tokens == [] + q1.tokens;
    }
  }

  lemma {:induction false} FlowEndSound(q: Parsing)
    requires Lives(FlowPairMove(q)) && Sees(q, FlowMappingEnd)
    ensures Alive(Popped(q.(tokens := q.tokens[1..])))
  {
    hide Nest, Alive;
  }

  lemma {:induction false} LastItem(tokens: seq<Token>, first: bool, sep: bool, end: Token, rest: seq<Token>)
    requires tokens == Comma(!sep) + ([end] + rest) && (first ==> !sep)
    ensures tokens == Items([], first) + (Comma(!sep) + [end]) + rest
  {
    Split(Comma(!sep), [end], rest);
    assert [] + (Comma(!sep) + [end]) == Comma(!sep) + [end];
  }

  lemma {:induction false} NextItem(tokens: seq<Token>, first: bool, sep: bool, t: Styled, more: seq<Styled>,
                                    comma: bool, end: Token, rest: seq<Token>)
    requires tokens == Comma(!sep) + (Tokens(t) + (Items(more, false) + (Comma(!comma) + [end]) + rest))
    requires sep == !first
    ensures tokens == Items([t] + more, first) + (Comma(!comma) + [end]) + rest
  {
    var ts := [t] + more;
    assert ts[1..] == more && ts[0] == t;
    var a, b, c, d := Comma(first), Tokens(t), Items(more, false), Comma(!comma) + [end];
    assert Items(ts, first) == a + (b + c);
    hide Items, Tokens, Comma;
    Regrouped(a, b, c, d, rest);
  }

  lemma {:induction false} Regrouped(a: seq<Token>, b: seq<Token>, c: seq<Token>, d: seq<Token>, e: seq<Token>)
    ensures a + (b + c) + d + e == a + (b + (c + d + e))
  {
  }

  lemma {:induction false} FlowPairSound(q: Parsing) returns (t: Styled, tail: seq<Token>)
    requires Lives(FlowPairMove(q)) && q.state == FlowMappingKey && q.tokens != [] && !Sees(q, FlowMappingEnd)
    ensures FitPair(t, q.directives, true) && q.tokens == Tokens(t) + tail && |tail| < |q.tokens|
    ensures Lives(FlowKeyMove(q.(tokens := tail), false))
    decreases |q.tokens|, 8
  {
    hide Alive, InsideMove, Fit, Nest, FlowKeyMove;
    if Sees(q, Key) {
      hide Tokens, FlowPairMove;
      var k, mid := FlowKeySound(q);
      var written, v;
      written, v, tail := FlowValueSound(q.(state := FlowMappingValue, tokens := mid));
      t := Styled.Pair(if written then Full else KeyOnly, k, v);
      PairWritten(k, written, v, tail);
    } else {
      var k;
      k, tail := ChildSound(q, FlowMappingEmptyValue, false, false);
      t := Styled.Pair(Bare, k, Left);
      hide Tokens;
      FlowNothing(q.(state := FlowMappingEmptyValue, tokens := tail));
      Opening(k, q.directives, true, false);
      LeftUnfit(k, q.directives);
    }
    Goes(q.(tokens := tail));
    FlowKeyState(q.(tokens := tail));
  }

  lemma {:induction false} LeftUnfit(t: Styled, ds: seq<Directive>)
    requires Fit(t, ds, true, false)
    ensures t != Left
  {
  }

  lemma {:induction false} FlowNothing(p: Parsing)
    requires Alive(p) && p.state == FlowMappingEmptyValue
    ensures Alive(p.(state := FlowMappingKey))
  {
    hide Alive, Nest;
    Goes(p);
  }

  lemma {:induction false} FlowKeyState(q: Parsing)
    requires q.state == FlowMappingKey
    ensures InsideMove(q) == FlowKeyMove(q, false)
  {
    hide FlowKeyMove;
  }

  lemma {:induction false} FlowKeySound(q: Parsing) returns (k: Styled, mid: seq<Token>)
    requires Lives(FlowPairMove(q)) && q.state == FlowMappingKey && Sees(q, Key)
    ensures (k == Left || Fit(k, q.directives, true, false)) && q.tokens == [Key] + (Tokens(k) + mid)
    ensures |mid| < |q.tokens| && Alive(q.(state := FlowMappingValue, tokens := mid))
    decreases |q.tokens|, 7
  {
    hide Alive, Fit, Nest;
    var q1 := Rest(q);
    assert q.tokens == [Key] + q1.tokens;
    if Sees(q1, Value) || Sees(q1, FlowEntry) || Sees(q1, FlowMappingEnd) {
      k, mid := Left, q1.tokens;
      assert Tokens(k) + mid == mid;
    } else {
      hide Tokens;
      k, mid := ChildSound(q1, FlowMappingValue, false, false);
    }
  }

  lemma {:induction false} FlowValueSound(p: Parsing) returns (written: bool, v: Styled, tail: seq<Token>)
    requires Alive(p) && p.state == FlowMappingValue
    ensures (v == Left || (written && Fit(v, p.directives, true, false))) && p.tokens == Second(written, v) + tail
    ensures |tail| <= |p.tokens| && Alive(p.(state := FlowMappingKey, tokens := tail))
    decreases |p.tokens|, 7
  {
    hide Alive, Fit, Nest;
    Goes(p);
    written, v, tail := Sees(p, Value), Left, p.tokens;
    assert Tokens(v) == [];
    if written {
      var q := Rest(p);
      assert p.tokens == [Value] + q.tokens;
      tail := q.tokens;
      if !(Sees(q, FlowEntry) || Sees(q, FlowMappingEnd)) {
        hide Tokens, InsideMove;
        v, tail := ChildSound(q, FlowMappingKey, false, false);
        Split([Value], Tokens(v), tail);
      }
    }
  }

  // ---------- the entries of a flow sequence ----------

  lemma {:induction false} ItemsSound(q: Parsing, first: bool)
    returns (ts: seq<Styled>, comma: bool, rest: seq<Token>)
    requires Lives(FlowSequenceMove(q, first)) && q.state == FlowSequenceEntry
    ensures FitItems(ts, q.directives) && (ts == [] && first ==> !comma)
    ensures q.tokens == Items(ts, first) + (Comma(!comma) + [FlowSequenceEnd]) + rest
    ensures Alive(Popped(q.(tokens := rest)))
    decreases |q.tokens|, 9
  {
    hide Alive, InsideMove, FlowItemMove, Fit, FitSingle, Tokens, Separated;
    var q1 := Separated(q, first, FlowSequenceEnd).value;
    var sep := SeparatedSound(q, first, FlowSequenceEnd);
    if Sees(q1, FlowSequenceEnd) {
      ts, comma, rest := [], sep, q1.tokens[1..];
      ItemsEndSound(q1);
      assert q1.tokens == [FlowSequenceEnd] + rest;
      LastItem(q.tokens, first, sep, FlowSequenceEnd, rest);
    } else {
      var t, tail := ItemSound(q1);
      var more;
      more, comma, rest := ItemsSound(q.(tokens := tail), false);
      ts := [t] + more;
      assert ts[1..] == more;
      NextItem(q.tokens, first, sep, t, more, comma, FlowSequenceEnd, rest);
    }
  }

  lemma {:induction false} ItemsEndSound(q: Parsing)
    requires Lives(FlowItemMove(q)) && Sees(q, FlowSequenceEnd)
    ensures Alive(Popped(q.(tokens := q.tokens[1..])))
  {
    hide Nest, Alive;
  }

  lemma {:induction false} ItemSound(q: Parsing) returns (t: Styled, tail: seq<Token>)
    requires Lives(FlowItemMove(q)) && q.state == FlowSequenceEntry && q.tokens != [] && !Sees(q, FlowSequenceEnd)
    ensures Fit(t, q.directives, true, false) || FitSingle(t, q.directives)
    ensures q.tokens == Tokens(t) + tail && |tail| < |q.tokens| && Lives(FlowSequenceMove(q.(tokens := tail), false))
    decreases |q.tokens|, 8
  {
    hide Alive, InsideMove, Fit, Nest, FlowSequenceMove, FitSingle, Tokens;
    if Sees(q, Key) {
      t, tail := SingleSound(q);
    } else {
      t, tail := ChildSound(q, FlowSequenceEntry, false, false);
    }
    Goes(q.(tokens := tail));
    ItemsState(q.(tokens := tail));
  }

  lemma {:induction false} ItemsState(q: Parsing)
    requires q.state == FlowSequenceEntry
    ensures InsideMove(q) == FlowSequenceMove(q, false)
  {
    hide FlowSequenceMove;
  }

  /** A single pair: with a key, or with a token that is skipped. */
  lemma {:induction false} SingleSound(q: Parsing) returns (t: Styled, tail: seq<Token>)
    requires Lives(FlowItemMove(q)) && q.state == FlowSequenceEntry && Sees(q, Key)
    ensures FitSingle(t, q.directives) && q.tokens == Tokens(t) + tail && |tail| < |q.tokens|
    ensures Alive(q.(tokens := tail))
    decreases |q.tokens|, 7
  {
    hide Alive, InsideMove, Fit, Nest, Tokens;
    var q1 := Rest(q).(state := EntryMappingKey);
    assert q.tokens == [Key] + q1.tokens;
    var skip, k, mid := EntryKeySound(q1);
    var written, v;
    written, v, tail := EntryValueSound(q.(state := EntryMappingValue, tokens := mid));
    EntryEndSound(q.(state := EntryMappingEnd, tokens := tail));
    if skip {
      t := SkipThere(q, q1.tokens[0], written, v, tail);
    } else {
      t := Styled.Pair(if written then Full else KeyOnly, k, v);
      PairWritten(k, written, v, tail);
      SingleThere(t, q.directives);
    }
  }

  lemma {:induction false} SkipThere(q: Parsing, x: Token, written: bool, v: Styled, tail: seq<Token>)
    returns (t: Styled)
    requires NoKey(x) && (v == Left || (written && Fit(v, q.directives, true, false)))
    requires q.tokens == [Key] + ([x] + (Second(written, v) + tail))
    ensures FitSingle(t, q.directives) && q.tokens == Tokens(t) + tail
  {
    hide Fit;
    t := Styled.Pair(Skip(x, written), Left, v);
    SkipTokens(t, tail);
    hide Tokens;
    Split([Value], Tokens(v), tail);
    assert [] + tail == tail;
    assert Skips(t, q.directives);
  }

  lemma {:induction false} SingleThere(t: Styled, ds: seq<Directive>)
    requires t.Pair? && (t.way == Full || (t.way == KeyOnly && t.val == Left)) && Fit(t.key, ds, true, false)
    requires t.val == Left || Fit(t.val, ds, true, false)
    ensures FitSingle(t, ds)
  {
    LeftUnfit(t.key, ds);
    hide Fit;
    assert FitParts(t, ds, true) && Indicated(t, ds);
  }

  lemma {:induction false} EntryKeySound(q: Parsing) returns (skip: bool, k: Styled, mid: seq<Token>)
    requires Alive(q) && q.state == EntryMappingKey
    ensures q.tokens != [] && |mid| <= |q.tokens| && Alive(q.(state := EntryMappingValue, tokens := mid))
    ensures if skip then k == Left && NoKey(q.tokens[0]) && q.tokens == [q.tokens[0]] + mid
            else Fit(k, q.directives, true, false) && q.tokens == Tokens(k) + mid
    decreases |q.tokens|, 7
  {
    hide Alive, Fit, Nest, Tokens;
    Goes(q);
    skip := NoKey(q.tokens[0]);
    if skip {
      k, mid := Left, q.tokens[1..];
    } else {
      hide InsideMove;
      k, mid := ChildSound(q, EntryMappingValue, false, false);
    }
  }

  lemma {:induction false} EntryValueSound(p: Parsing) returns (written: bool, v: Styled, tail: seq<Token>)
    requires Alive(p) && p.state == EntryMappingValue
    ensures (v == Left || (written && Fit(v, p.directives, true, false))) && p.tokens == Second(written, v) + tail
    ensures |tail| <= |p.tokens| && Alive(p.(state := EntryMappingEnd, tokens := tail))
    decreases |p.tokens|, 7
  {
    hide Alive, Fit, Nest;
    Goes(p);
    written, v, tail := Sees(p, Value), Left, p.tokens;
    assert Tokens(v) == [];
    if written {
      var q := Rest(p);
      assert p.tokens == [Value] + q.tokens;
      tail := q.tokens;
      if !(Sees(q, FlowEntry) || Sees(q, FlowSequenceEnd)) {
        hide Tokens, InsideMove;
        v, tail := ChildSound(q, EntryMappingEnd, false, false);
        Split([Value], Tokens(v), tail);
      }
    }
  }

  lemma {:induction false} EntryEndSound(p: Parsing)
    requires Alive(p) && p.state == EntryMappingEnd
    ensures Alive(p.(state := FlowSequenceEntry))
  {
    hide Alive;
    Goes(p);
  }

  // ---------- streams ----------

  /** Nothing comes behind the end of the stream. */
  ghost predicate Ending(ts: seq<Token>) {
    forall i :: 0 <= i < |ts| - 1 ==> ts[i] != StreamEndToken
  }

  lemma {:induction false} EndingSuffix(a: seq<Token>, b: seq<Token>)
    requires Ending(a + b)
    ensures Ending(b)
  {
    assert forall i :: 0 <= i < |b| ==> (a + b)[|a| + i] == b[i];
  }

  lemma {:induction false} HeadSplit(ts: seq<Token>) returns (head: seq<Token>, rest: seq<Token>)
    ensures ts == head + rest && (forall i :: 0 <= i < |head| ==> IsDirective(head[i]))
    ensures rest != [] ==> !IsDirective(rest[0])
  {
    if ts == [] || !IsDirective(ts[0]) {
      head, rest := [], ts;
    } else {
      head, rest := HeadSplit(ts[1..]);
      head := [ts[0]] + head;
    }
  }

  lemma {:induction false} HeadAlone(p: Parsing, version: bool)
    requires forall i :: 0 <= i < |p.tokens| ==> IsDirective(p.tokens[i])
    ensures Directives(p, version) == None
    decreases |p.tokens|
  {
    hide FindHandle, Known;
    if p.tokens != [] {
      var t := p.tokens[0];
      assert IsDirective(t);
      if t.VersionDirective? {
        HeadAlone(Rest(p), true);
      } else {
        HeadAlone(Rest(p).(directives := p.directives + [Directive(t.handle, t.prefix)]), version);
      }
    }
  }

  /** The lines in front of a document. */
  lemma {:induction false} HeadSound(p: Parsing) returns (head: seq<Token>, rest: seq<Token>)
    requires Directives(p, false).Some? && p.directives == []
    ensures p.tokens == head + rest && rest != [] && (forall i :: 0 <= i < |head| ==> IsDirective(head[i]))
    ensures GoodHead(head) && Directives(p, false) == Some(p.(tokens := rest, directives := InForce(TagsOf(head))))
  {
    hide Directives, InForce, GoodHead;
    head, rest := HeadSplit(p.tokens);
    if rest == [] {
      assert head + [] == head;
      HeadAlone(p, false);
    }
    HeadRead(p, head, rest);
  }

  /** A document behind its start, and what comes behind its end. */
  lemma {:induction false} BodySound(p: Parsing) returns (t: Styled, bit: nat, rest: seq<Token>)
    requires Alive(p) && p.states == [AtDocumentEnd] && (p.state == DocumentContent || p.state == BlockNode)
    ensures Root(t, p.directives) && (p.state == BlockNode ==> t != Left) && bit <= 1
    ensures p.tokens == Tokens(t) + (Ends(bit) + rest) && Alive(Parsing(rest, AtDocument, [], []))
  {
    hide Alive, NodeMove, Fit, Ends;
    Goes(p);
    var behind;
    assert [AtDocumentEnd][..0] == [];
    if p.state == DocumentContent && EndsDocument(p.tokens[0]) {
      t, behind := Left, p.tokens;
      assert Tokens(t) + behind == behind;
    } else {
      hide Tokens;
      t, behind := NodeSound(p, true, false);
      RootThere(t, p.directives);
    }
    bit, rest := FinishSound(Parsing(behind, AtDocumentEnd, [], p.directives));
  }

  lemma {:induction false} RootThere(t: Styled, ds: seq<Directive>)
    requires Fit(t, ds, false, false)
    ensures t != Left
  {
  }

  lemma {:induction false} FinishSound(p: Parsing) returns (bit: nat, rest: seq<Token>)
    requires Alive(p) && p.state == AtDocumentEnd && p.states == []
    ensures bit <= 1 && p.tokens == Ends(bit) + rest && Alive(Parsing(rest, AtDocument, [], []))
  {
    hide Alive;
    Goes(p);
    bit := if p.tokens[0] == DocumentEndToken then 1 else 0;
    rest := if bit == 1 then p.tokens[1..] else p.tokens;
    assert p.tokens == Ends(bit) + rest by {
      assert Ends(0) == [] && Ends(1) == [DocumentEndToken] + Ends(0);
    }
  }

  lemma {:induction false} EndsOf(ts: seq<Token>) returns (n: nat)
    ensures ts == Ends(n) + SkipEnds(ts)
  {
    if ts != [] && ts[0] == DocumentEndToken {
      n := EndsOf(ts[1..]);
      n := n + 1;
      assert ts == [DocumentEndToken] + ts[1..];
    } else {
      n := 0;
    }
  }

  /** The documents that are still to come. */
  lemma {:induction false} DocumentsSound(p: Parsing) returns (n: nat, ds: seq<Document>)
    requires Alive(p) && p == Parsing(p.tokens, AtDocument, [], []) && Ending(p.tokens)
    ensures p.tokens == Ends(n) + Documents(ds) && forall i :: 0 <= i < |ds| ==> Good(ds[i])
    decreases |p.tokens|, 1
  {
    hide Alive, Ends, Documents, Good, Ending;
    n := EndsOf(p.tokens);
    var q := p.(tokens := SkipEnds(p.tokens));
    EndingSuffix(Ends(n), q.tokens);
    EndsShort(n, q.tokens);
    ds := ExplicitSound(p, q);
  }

  lemma {:induction false} EndsShort(n: nat, ts: seq<Token>)
    ensures |ts| <= |Ends(n) + ts|
  {
  }

  /** From the lines in front of a document on. */
  lemma {:induction false} ExplicitSound(p: Parsing, q: Parsing) returns (ds: seq<Document>)
    requires Alive(p) && p == Parsing(p.tokens, p.state, [], []) && q == p.(tokens := q.tokens) && Ending(q.tokens)
    requires if p.state == AtDocument then q.tokens == SkipEnds(p.tokens)
             else p.state == AtImplicitDocument && q == p && q.tokens != [] &&
                  (IsDirective(q.tokens[0]) || q.tokens[0] in {DocumentStartToken, StreamEndToken})
    ensures q.tokens == Documents(ds) && forall i :: 0 <= i < |ds| ==> Good(ds[i])
    decreases |q.tokens|, 0
  {
    hide Alive, Directives, Good, InForce, Documents, Ends, Tokens, Ending, GoodHead, Root;
    OpenSound(p, q);
    if q.tokens[0] == StreamEndToken {
      ds := [];
      OnlyThat(q.tokens);
    } else {
      var head, d := StartSound(q);
      var t, bit, more := BodySound(d);
      OneDocument(head, t, bit, more);
      var n, others := DocumentsSound(Parsing(more, AtDocument, [], []));
      ds := [Document(head, t, bit + n)] + others;
      NextDocument(head, t, bit, n, others);
      GoodThere(head, t, bit + n);
    }
  }

  /** The lines in front of a document and the one that starts it. */
  lemma {:induction false} StartSound(q: Parsing) returns (head: seq<Token>, d: Parsing)
    requires q.directives == []
    requires var o := Directives(q, false);
      && o.Some? && Sees(o.value, DocumentStartToken)
      && Alive(Parsing(o.value.tokens[1..], DocumentContent, [AtDocumentEnd], o.value.directives))
    ensures (forall i :: 0 <= i < |head| ==> IsDirective(head[i])) && GoodHead(head)
    ensures q.tokens == head + ([DocumentStartToken] + d.tokens) && Alive(d)
    ensures d == Parsing(d.tokens, DocumentContent, [AtDocumentEnd], InForce(TagsOf(head)))
  {
    hide Alive, Directives, InForce, GoodHead;
    var rest;
    head, rest := HeadSound(q);
    d := Parsing(rest[1..], DocumentContent, [AtDocumentEnd], InForce(TagsOf(head)));
    assert rest == [DocumentStartToken] + d.tokens;
  }

  lemma {:induction false} OneDocument(head: seq<Token>, t: Styled, bit: nat, more: seq<Token>)
    requires Ending(head + ([DocumentStartToken] + (Tokens(t) + (Ends(bit) + more))))
    ensures Ending(more)
    ensures |more| < |head + ([DocumentStartToken] + (Tokens(t) + (Ends(bit) + more)))|
  {
    hide Tokens, Ends, Ending;
    var front := head + [DocumentStartToken] + Tokens(t) + Ends(bit);
    assert head + ([DocumentStartToken] + (Tokens(t) + (Ends(bit) + more))) == front + more;
    EndingSuffix(front, more);
  }

  lemma {:induction false} NextDocument(head: seq<Token>, t: Styled, bit: nat, n: nat, others: seq<Document>)
    requires bit <= 1
    ensures Documents([Document(head, t, bit + n)] + others) ==
            head + ([DocumentStartToken] + (Tokens(t) + (Ends(bit) + (Ends(n) + Documents(others)))))
  {
    hide Tokens, Ends;
    var ds := [Document(head, t, bit + n)] + others;
    assert ds[1..] == others;
    EndsMore(bit, n, Documents(others));
  }

  lemma {:induction false} GoodThere(head: seq<Token>, t: Styled, n: nat)
    requires (forall i :: 0 <= i < |head| ==> IsDirective(head[i])) && GoodHead(head) && Root(t, InForce(TagsOf(head)))
    ensures Good(Document(head, t, n))
  {
  }

  lemma {:induction false} OnlyThat(ts: seq<Token>)
    requires ts != [] && ts[0] == StreamEndToken && Ending(ts)
    ensures ts == [StreamEndToken] == Documents([])
  {
    assert |ts| == 1;
  }

  lemma {:induction false} EndsMore(bit: nat, n: nat, ts: seq<Token>)
    requires bit <= 1
    ensures Ends(bit) + (Ends(n) + ts) == Ends(bit + n) + ts
  {
    assert Ends(0) == [] && Ends(1) == [DocumentEndToken] + Ends(0);
    assert bit == 1 ==> Ends(1 + n) == [DocumentEndToken] + Ends(n);
  }

  lemma {:induction false} OpenSound(p: Parsing, q: Parsing)
    requires Alive(p) && p.states == [] && p.directives == [] && q == p.(tokens := q.tokens)
    requires if p.state == AtDocument then q.tokens == SkipEnds(p.tokens)
             else p.state == AtImplicitDocument && q == p && q.tokens != [] &&
                  (IsDirective(q.tokens[0]) || q.tokens[0] in {DocumentStartToken, StreamEndToken})
    ensures q.tokens != []
    ensures q.tokens[0] != StreamEndToken ==>
      var d := Directives(q, false);
      && d.Some? && Sees(d.value, DocumentStartToken)
      && Alive(Parsing(d.value.tokens[1..], DocumentContent, [AtDocumentEnd], d.value.directives))
  {
    hide Calls, InsideMove, Directives, SkipEnds;
    CallsStep(p);
    assert [] + [AtDocumentEnd] == [AtDocumentEnd];
    if q.tokens != [] && q.tokens[0] != StreamEndToken {
      DirectivesKeep(q, false);
    }
  }

  lemma {:induction false} DirectivesKeep(p: Parsing, version: bool)
    ensures var d := Directives(p, version); d.Some? ==> d.value.states == p.states && d.value.state == p.state
    decreases |p.tokens|
  {
    hide FindHandle, Known;
    if p.tokens != [] {
      var t := p.tokens[0];
      if t.VersionDirective? {
        DirectivesKeep(Rest(p), true);
      } else if t.TagDirective? {
        DirectivesKeep(Rest(p).(directives := p.directives + [Directive(t.handle, t.prefix)]), version);
      }
    }
  }

  /** A first document without a line that starts it. */
  lemma {:induction false} BareSound(p: Parsing) returns (ds: seq<Document>)
    requires Alive(p) && p == Parsing(p.tokens, AtImplicitDocument, [], []) && Ending(p.tokens) && p.tokens != []
    requires !IsDirective(p.tokens[0]) && p.tokens[0] !in {DocumentStartToken, StreamEndToken}
    ensures ds != [] && ds[0].head == [] && ds[0].body != Left && p.tokens == BehindStart(ds)
    ensures forall i :: 0 <= i < |ds| ==> Good(ds[i])
  {
    hide Alive, Good, InForce, Directives, Ends;
    var d := Parsing(p.tokens, BlockNode, [AtDocumentEnd], InForce([]));
    BareOpens(p);
    var t, bit, more := BodySound(d);
    var front := Tokens(t) + Ends(bit);
    hide Tokens;
    assert p.tokens == front + more;
    EndingSuffix(front, more);
    var n, others := DocumentsSound(Parsing(more, AtDocument, [], []));
    ds := [Document([], t, bit + n)] + others;
    assert ds[1..] == others;
    EndsMore(bit, n, Documents(others));
    NoHead();
    GoodThere([], t, bit + n);
  }

  lemma {:induction false} NoHead()
    ensures TagsOf([]) == [] && GoodHead([])
  {
  }

  lemma {:induction false} BareOpens(p: Parsing)
    requires Alive(p) && p == Parsing(p.tokens, AtImplicitDocument, [], []) && p.tokens != []
    requires !IsDirective(p.tokens[0]) && p.tokens[0] !in {DocumentStartToken, StreamEndToken}
    ensures Alive(Parsing(p.tokens, BlockNode, [AtDocumentEnd], InForce([])))
  {
    hide Calls, InsideMove, Directives, InForce;
    CallsStep(p);
    assert p.tokens == [] + p.tokens;
    HeadRead(p, [], p.tokens);
    NoHead();
    assert [] + [AtDocumentEnd] == [AtDocumentEnd];
  }

  /** Some documents are written like this. */
  ghost predicate Writes(ts: seq<Token>, ds: seq<Document>, bare: bool) {
    && (forall i :: 0 <= i < |ds| ==> Good(ds[i])) && ts == Stream(ds, bare)
    && (bare && ds != [] ==> ds[0].head == [] && ds[0].body != Left)
  }

  lemma {:induction false} StreamSound(ts: seq<Token>) returns (ds: seq<Document>, bare: bool)
    requires Alive(Parsing(ts, AtStreamStart, [], [])) && Ending(ts)
    ensures Writes(ts, ds, bare)
  {
    hide Good, BehindStart, Documents, Ending;
    var p := Parsing(if ts == [] then [] else ts[1..], AtImplicitDocument, [], []);
    StreamOpens(ts);
    assert ts == [StreamStartToken] + p.tokens;
    EndingSuffix([StreamStartToken], p.tokens);
    hide Alive;
    StreamGoesOn(p);
    var c := p.tokens[0];
    bare := !IsDirective(c) && c !in {DocumentStartToken, StreamEndToken};
    if bare {
      ds := BareSound(p);
    } else {
      ds := ExplicitSound(p, p);
    }
  }

  lemma {:induction false} StreamOpens(ts: seq<Token>)
    requires Alive(Parsing(ts, AtStreamStart, [], []))
    ensures ts != [] && ts[0] == StreamStartToken && Alive(Parsing(ts[1..], AtImplicitDocument, [], []))
  {
    hide Calls, InsideMove, DocumentMove;
    CallsStep(Parsing(ts, AtStreamStart, [], []));
  }

  lemma {:induction false} StreamGoesOn(p: Parsing)
    requires Alive(p) && p.state == AtImplicitDocument
    ensures p.tokens != []
  {
    hide Calls, InsideMove, OpenMove;
    CallsStep(p);
  }

  /** The parser reads a stream to its end if and only if some documents are written like
      this, and then it delivers the events of those documents. */
  lemma {:induction false} AcceptsIff(ts: seq<Token>)
    requires Ending(ts)
    ensures var outcome := Calls(Parsing(ts, AtStreamStart, [], []));
      && (!outcome.failed <==> exists ds, bare :: Writes(ts, ds, bare))
      && (forall ds, bare :: Writes(ts, ds, bare) ==> outcome.events == [StreamStart] + DocumentEvents(ds))
  {
    hide Calls, Stream, Good, DocumentEvents;
    if Alive(Parsing(ts, AtStreamStart, [], [])) {
      var ds, bare := StreamSound(ts);
    }
    forall ds, bare | Writes(ts, ds, bare)
      ensures Calls(Parsing(ts, AtStreamStart, [], [])) == Outcome([StreamStart] + DocumentEvents(ds), false)
    {
      StreamParses(ds, bare);
    }
  }
}
