/** Whole streams: documents with their directives, as the event parser of parser.c reads them. */
module YamlStreams {
  import opened Basics
  import opened YamlNodes
  import opened YamlGrammar
  import opened YamlStates
  import opened YamlRender

  // ---------- directives ----------

  /** The handles that the lines in front of a document declare. */
  function TagsOf(head: seq<Token>): seq<Directive> {
    if head == [] then []
    else (if head[0].TagDirective? then [Directive(head[0].handle, head[0].prefix)] else []) + TagsOf(head[1..])
  }

  function Versions(head: seq<Token>): nat {
    if head == [] then 0 else (if head[0].VersionDirective? then 1 else 0) + Versions(head[1..])
  }

  predicate IsDirective(t: Token) {
    t.VersionDirective? || t.TagDirective?
  }

  predicate GoodVersion(t: Token) {
    t.VersionDirective? ==> t.major == 1 && (t.minor == 1 || t.minor == 2)
  }

  ghost predicate Distinct(ds: seq<Directive>) {
    forall i, j :: 0 <= i < j < |ds| ==> ds[i].handle != ds[j].handle
  }

  ghost predicate GoodVersions(head: seq<Token>) {
    forall i :: 0 <= i < |head| ==> GoodVersion(head[i])
  }

  /** At most one version, which is 1.1 or 1.2, and no handle twice. */
  ghost predicate GoodHead(head: seq<Token>) {
    Versions(head) <= 1 && GoodVersions(head) && Distinct(TagsOf(head))
  }

  ghost predicate Declares(ds: seq<Directive>, handle: string) {
    exists i :: 0 <= i < |ds| && ds[i].handle == handle
  }

  /** The declared handles, and the two that are known without. */
  ghost function InForce(ds: seq<Directive>): seq<Directive> {
    ds + (if Declares(ds, "!") then [] else [Directive("!", "!")]) +
    (if Declares(ds, "!!") then [] else [Directive("!!", "tag:yaml.org,2002:")])
  }

  lemma {:induction false} Finds(ds: seq<Directive>, handle: string)
    ensures FindHandle(ds, handle) < |ds| <==> Declares(ds, handle)
  {
  }

  lemma {:induction false} KnownInForce(ds: seq<Directive>)
    ensures Known(Known(ds, Directive("!", "!")), Directive("!!", "tag:yaml.org,2002:")) == InForce(ds)
  {
    hide FindHandle;
    var one := Known(ds, Directive("!", "!"));
    Finds(ds, "!");
    Finds(one, "!!");
    if Declares(ds, "!!") {
      var i :| 0 <= i < |ds| && ds[i].handle == "!!";
      assert one[i].handle == "!!";
    }
    assert one + [] == one && ds + [] == ds;
  }

  /** The lines in front of a document are read if and only if they are in order. */
  lemma {:induction false} HeadRead(p: Parsing, head: seq<Token>, rest: seq<Token>)
    requires p.tokens == head + rest && rest != [] && !IsDirective(rest[0]) && p.directives == []
    requires forall i :: 0 <= i < |head| ==> IsDirective(head[i])
    ensures Directives(p, false) ==
      if GoodHead(head) then Some(p.(tokens := rest, directives := InForce(TagsOf(head)))) else None
  {
    hide InForce, TagsOf, Versions, Directives;
    LinesRead(p, head, rest, false);
    assert [] + TagsOf(head) == TagsOf(head);
  }

  lemma {:induction false} LinesRead(p: Parsing, head: seq<Token>, rest: seq<Token>, version: bool)
    requires p.tokens == head + rest && rest != [] && !IsDirective(rest[0]) && Distinct(p.directives)
    requires forall i :: 0 <= i < |head| ==> IsDirective(head[i])
    ensures var good := Versions(head) + (if version then 1 else 0) <= 1 && GoodVersions(head) &&
                        Distinct(p.directives + TagsOf(head));
      Directives(p, version) ==
      if good then Some(p.(tokens := rest, directives := InForce(p.directives + TagsOf(head)))) else None
    decreases |head|
  {
    hide FindHandle, Known, InForce, Distinct, TagsOf, Versions, GoodVersions;
    var ds := p.directives;
    if head == [] {
      NoLines(ds);
      KnownInForce(ds);
      assert p.tokens == rest;
    } else {
      LineFirst(ds, head);
      assert p.tokens[1..] == head[1..] + rest && p.tokens[0] == head[0];
      if head[0].VersionDirective? {
        LinesRead(Rest(p), head[1..], rest, true);
      } else {
        var d := Directive(head[0].handle, head[0].prefix);
        Finds(ds, d.handle);
        OneHandle(ds, d, TagsOf(head[1..]));
        if !Declares(ds, d.handle) {
          LinesRead(Rest(p).(directives := ds + [d]), head[1..], rest, version);
        }
      }
    }
  }

  lemma {:induction false} NoLines(ds: seq<Directive>)
    ensures Versions([]) == 0 && GoodVersions([]) && ds + TagsOf([]) == ds
  {
  }

  lemma {:induction false} LineFirst(ds: seq<Directive>, head: seq<Token>)
    requires head != []
    ensures Versions(head) == Versions(head[1..]) + if head[0].VersionDirective? then 1 else 0
    ensures GoodVersions(head) <==> GoodVersion(head[0]) && GoodVersions(head[1..])
    ensures ds + TagsOf(head) ==
            if head[0].TagDirective? then ds + [Directive(head[0].handle, head[0].prefix)] + TagsOf(head[1..])
            else ds + TagsOf(head[1..])
  {
    assert head == [head[0]] + head[1..];
  }

  lemma {:induction false} OneHandle(ds: seq<Directive>, d: Directive, more: seq<Directive>)
    requires Distinct(ds)
    ensures Distinct(ds + [d]) <==> !Declares(ds, d.handle)
    ensures Distinct(ds + [d] + more) ==> Distinct(ds + [d])
  {
    var all := ds + [d];
    if Declares(ds, d.handle) {
      var i :| 0 <= i < |ds| && ds[i].handle == d.handle;
      assert all[i].handle == all[|ds|].handle;
    }
    assert forall i :: 0 <= i < |all| ==> all[i] == (all + more)[i];
  }

  // ---------- what tags stand for ----------

  /** A handle that is declared stands for its prefix. */
  lemma {:induction false} DeclaredMeans(ds: seq<Directive>, d: Directive, suffix: string)
    requires Distinct(ds) && d in ds && d.handle != ""
    ensures Means(InForce(ds), Spelling(d.prefix + suffix, d.handle, suffix))
  {
    var i :| 0 <= i < |ds| && ds[i] == d;
    var all := InForce(ds);
    assert forall j :: 0 <= j <= i ==> all[j] == ds[j];
  }

  /** Unless they are declared otherwise, '!' stands for itself and '!!' for YAML's own tags. */
  lemma {:induction false} DefaultMeans(ds: seq<Directive>, suffix: string)
    ensures !Declares(ds, "!") ==> Means(InForce(ds), Spelling("!" + suffix, "!", suffix))
    ensures !Declares(ds, "!!") ==> Means(InForce(ds), Spelling("tag:yaml.org,2002:" + suffix, "!!", suffix))
  {
    var all := InForce(ds);
    if !Declares(ds, "!") {
      assert all[|ds|] == Directive("!", "!") && forall j :: 0 <= j < |ds| ==> all[j] == ds[j];
    }
    if !Declares(ds, "!!") {
      assert all[|all| - 1] == Directive("!!", "tag:yaml.org,2002:");
      forall j | 0 <= j < |all| - 1 ensures all[j].handle != "!!" {
        assert j < |ds| ==> all[j] == ds[j];
      }
    }
  }

  /** A tag stands for one thing at most, and a node is read if and only if its tag does. */
  lemma {:induction false} TagRead(p: Parsing, m: Marks, text: string, rest: seq<Token>, block: bool, indentless: bool)
    requires p.tokens == Marked(m) + ([ScalarToken(text)] + rest) && m.tag.Some?
    ensures var move := NodeMove(p, block, indentless);
      if Meant(p.directives, m) then move == Move(Scalar(m.name, TagOf(m), text), Popped(p.(tokens := rest)))
      else move.Move? ==> move.e != Scalar(m.name, TagOf(m), text)
    ensures NodeMove(p, block, indentless).Move? <==>
            m.tag.value.handle == "" || Declares(p.directives, m.tag.value.handle)
  {
    var c := ScalarToken(text);
    var w := m.tag.value;
    MarksRead(m, c, rest);
    hide Marked, ReadProps;
    var ts := [c] + rest;
    assert p.tokens[|Marked(m)|..] == ts && ts[1..] == rest;
    Finds(p.directives, w.handle);
    if Meant(p.directives, m) {
      Resolves(p.directives, ReadProps(p.tokens), m);
    }
  }

  // ---------- streams ----------

  /** A document: the directives in front of it, its node, and how many lines end it. */
  datatype Document = Document(head: seq<Token>, body: Styled, ends: nat)

  /** A document of its own: a node, or nothing. */
  ghost predicate Root(t: Styled, ds: seq<Directive>) {
    t == Left || Fit(t, ds, false, false)
  }

  ghost predicate Good(d: Document) {
    && (forall i :: 0 <= i < |d.head| ==> IsDirective(d.head[i]))
    && GoodHead(d.head) && Root(d.body, InForce(TagsOf(d.head)))
  }

  function Ends(n: nat): seq<Token> {
    if n == 0 then [] else [DocumentEndToken] + Ends(n - 1)
  }

  function Documents(ds: seq<Document>): seq<Token>
    decreases |ds|, 1
  {
    if ds == [] then [StreamEndToken] else ds[0].head + ([DocumentStartToken] + BehindStart(ds))
  }

  /** The first document behind its start, and the others. */
  function BehindStart(ds: seq<Document>): seq<Token>
    requires ds != []
    decreases |ds|, 0
  {
    Tokens(ds[0].body) + (Ends(ds[0].ends) + Documents(ds[1..]))
  }

  function DocumentEvents(ds: seq<Document>): seq<StreamEvent> {
    if ds == [] then [StreamEnd]
    else [DocumentStart] + (Lift(Events(Plain(ds[0].body)) + [DocumentEnd]) + DocumentEvents(ds[1..]))
  }

  /** A stream of documents; the first one may stand there without the line that starts it. */
  function Stream(ds: seq<Document>, bare: bool): seq<Token> {
    [StreamStartToken] + if bare && ds != [] then BehindStart(ds) else Documents(ds)
  }

  lemma {:induction false} CallsInside(p: Parsing, es: seq<Event>, q: Parsing)
    requires Emits(p, es) == Some(q)
    ensures Calls(p) == Outcome(Lift(es) + Calls(q).events, Calls(q).failed)
    decreases |es|
  {
    hide InsideMove, Lift, Calls, Next;
    if es == [] {
      LiftNone();
      assert [] + Calls(q).events == Calls(q).events;
    } else {
      var m := InsideMove(p);
      InsideNext(p);
      CallsStep(p);
      CallsInside(m.next, es[1..], q);
      LiftCons(es);
      OneMore(InDocument(es[0]), Lift(es[1..]), Calls(q).events);
    }
  }

  lemma {:induction false} OneMore(e: StreamEvent, a: seq<StreamEvent>, b: seq<StreamEvent>)
    ensures [e] + a + b == [e] + (a + b)
  {
  }

  lemma {:induction false} InsideNext(p: Parsing)
    ensures InsideMove(p).Move? ==>
      p.state != AtEnd && Next(p) == Moved(InDocument(InsideMove(p).e), InsideMove(p).next)
  {
    hide BodyMove, FinishMove, NodeMove, BlockSequenceMove, IndentlessMove, BlockKeyMove, BlockValueMove,
         FlowSequenceMove, EntryKeyMove, EntryValueMove, EntryEndMove, FlowKeyMove, FlowValueMove, DocumentMove;
  }

  lemma {:induction false} LiftNone()
    ensures Lift([]) == []
  {
  }

  lemma {:induction false} LiftCons(es: seq<Event>)
    requires es != []
    ensures Lift(es) == [InDocument(es[0])] + Lift(es[1..])
  {
  }

  /** Where a document is over, in front of the next one or at the end. */
  lemma {:induction false} Beginning(ds: seq<Document>, n: nat)
    requires forall i :: 0 <= i < |ds| ==> Good(ds[i])
    ensures var x := Documents(ds); x != [] && EndsDocument(x[0]) && x[0] != DocumentEndToken
    ensures var x := Ends(n) + Documents(ds); x != [] && EndsDocument(x[0])
    ensures n > 0 ==> Ends(n) + Documents(ds) == [DocumentEndToken] + (Ends(n - 1) + Documents(ds))
    ensures n == 0 ==> Ends(n) + Documents(ds) == Documents(ds)
  {
    hide GoodHead, Root, Tokens;
    if ds != [] && ds[0].head != [] {
      assert IsDirective(ds[0].head[0]);
    }
  }

  lemma {:induction false} EndsSkipped(n: nat, ts: seq<Token>)
    requires ts != [] && ts[0] != DocumentEndToken
    ensures SkipEnds(Ends(n) + ts) == ts
  {
    if n == 0 {
      assert Ends(n) + ts == ts;
    } else {
      EndsSkipped(n - 1, ts);
      assert (Ends(n) + ts)[1..] == Ends(n - 1) + ts;
    }
  }

  /** The body of a document and its end. */
  lemma {:induction false} BodyRun(p: Parsing, t: Styled, n: nat, ds: seq<Document>)
    requires Root(t, p.directives) && p.tokens == Tokens(t) + (Ends(n) + Documents(ds)) && p.states == [AtDocumentEnd]
    requires forall i :: 0 <= i < |ds| ==> Good(ds[i])
    requires p.state == DocumentContent || (p.state == BlockNode && t != Left)
    ensures Emits(p, Events(Plain(t)) + [DocumentEnd]) ==
      Some(Parsing(Ends(if n == 0 then 0 else n - 1) + Documents(ds), AtDocument, [], []))
  {
    hide After, Events, Plain, Tokens, NodeMove, Good, Ends, Documents;
    var rest := Ends(n) + Documents(ds);
    var end := Parsing(Ends(if n == 0 then 0 else n - 1) + Documents(ds), AtDocument, [], []);
    var q := Parsing(rest, AtDocumentEnd, [], p.directives);
    Beginning(ds, n);
    assert [AtDocumentEnd][..0] == [];
    EventsSome(Plain(t));
    LeftNothing();
    FinishRun(q, end.tokens);
    if t == Left {
      LeftRoot(p, rest);
    } else {
      Opening(t, p.directives, false, false);
      NodeRun(p, t, rest, true, false);
    }
    NodeThen(InsideMove(p), Events(Plain(t)), [DocumentEnd], q, Some(end));
  }

  lemma {:induction false} FinishRun(q: Parsing, rest: seq<Token>)
    requires q.state == AtDocumentEnd && q.states == [] && q.tokens != []
    requires q.tokens == if q.tokens[0] == DocumentEndToken then [DocumentEndToken] + rest else rest
    ensures After(InsideMove(q), [DocumentEnd]) == Some(Parsing(rest, AtDocument, [], []))
  {
    assert ([DocumentEndToken] + rest)[1..] == rest;
  }

  lemma {:induction false} LeftRoot(p: Parsing, rest: seq<Token>)
    requires p.tokens == Tokens(Left) + rest && rest != [] && EndsDocument(rest[0])
    requires p.state == DocumentContent && p.states == [AtDocumentEnd]
    ensures After(InsideMove(p), Events(Plain(Left))) == Some(Parsing(rest, AtDocumentEnd, [], p.directives))
  {
    assert p.tokens == rest && [AtDocumentEnd][..0] == [];
  }

  lemma {:induction false} DocumentsRun(p: Parsing, ds: seq<Document>, n: nat)
    requires p == Parsing(Ends(n) + Documents(ds), p.state, [], [])
    requires p.state == AtDocument || (p.state == AtImplicitDocument && n == 0)
    requires forall i :: 0 <= i < |ds| ==> Good(ds[i])
    ensures Calls(p) == Outcome(DocumentEvents(ds), false)
    decreases |ds|
  {
    hide InsideMove, Lift, Tokens, Events, Plain, Good, Emits, After, Calls, Next, Ends, Documents;
    CallsStep(p);
    Beginning(ds, n);
    if ds == [] {
      StreamOver(p, n);
    } else {
      var es := Events(Plain(ds[0].body)) + [DocumentEnd];
      var q := Parsing(BehindStart(ds), DocumentContent, [AtDocumentEnd], InForce(TagsOf(ds[0].head)));
      StartsExplicit(p, ds, n);
      GoodBody(ds[0]);
      BodyRun(q, ds[0].body, ds[0].ends, ds[1..]);
      var k := if ds[0].ends == 0 then 0 else ds[0].ends - 1;
      var r := Parsing(Ends(k) + Documents(ds[1..]), AtDocument, [], []);
      CallsInside(q, es, r);
      DocumentsRun(r, ds[1..], k);
    }
  }

  lemma {:induction false} GoodBody(d: Document)
    requires Good(d)
    ensures Root(d.body, InForce(TagsOf(d.head)))
  {
  }

  lemma {:induction false} StreamOver(p: Parsing, n: nat)
    requires p.tokens == Ends(n) + Documents([]) && (p.state == AtDocument || (p.state == AtImplicitDocument && n == 0))
    ensures Calls(p) == Outcome([StreamEnd], false)
  {
    hide InsideMove, Calls, Ends, Next;
    var q := Parsing([], AtEnd, p.states, p.directives);
    LastMove(p, n);
    CallsStep(p);
    CallsStep(q);
  }

  lemma {:induction false} LastMove(p: Parsing, n: nat)
    requires p.tokens == Ends(n) + Documents([]) && (p.state == AtDocument || (p.state == AtImplicitDocument && n == 0))
    ensures Next(p) == Moved(StreamEnd, Parsing([], AtEnd, p.states, p.directives))
  {
    hide InsideMove, Ends, OpenMove;
    EndsSkipped(n, Documents([]));
    Beginning([], n);
  }

  /** A document with a line that starts it, whatever lines ended the one before. */
  lemma {:induction false} StartsExplicit(p: Parsing, ds: seq<Document>, n: nat)
    requires ds != [] && (forall i :: 0 <= i < |ds| ==> Good(ds[i]))
    requires p == Parsing(Ends(n) + Documents(ds), p.state, [], [])
    requires p.state == AtDocument || (p.state == AtImplicitDocument && n == 0)
    ensures Next(p) == Moved(DocumentStart, Parsing(BehindStart(ds), DocumentContent, [AtDocumentEnd],
                                                    InForce(TagsOf(ds[0].head))))
  {
    hide InsideMove, Directives, Ends, BehindStart, InForce, TagsOf, GoodHead, Root;
    Beginning(ds, n);
    EndsSkipped(n, Documents(ds));
    var q := p.(tokens := Documents(ds));
    var rest := [DocumentStartToken] + BehindStart(ds);
    assert Good(ds[0]);
    HeadRead(q, ds[0].head, rest);
    assert rest[1..] == BehindStart(ds) && [] + [AtDocumentEnd] == [AtDocumentEnd];
    assert ds[0].head != [] ==> IsDirective(ds[0].head[0]);
  }

  lemma {:induction false} StartsBare(p: Parsing)
    requires p.tokens != [] && Starts(p.tokens[0]) && p.states == [] && p.directives == [] &&
      p.state == AtImplicitDocument
    ensures Next(p) == Moved(DocumentStart, Parsing(p.tokens, BlockNode, [AtDocumentEnd], InForce([])))
  {
    hide InsideMove, Directives, InForce;
    assert p.tokens == [] + p.tokens;
    HeadRead(p, [], p.tokens);
  }

  /** Parsing undoes writing: any documents, with any directives in order and in any mix of
      styles and ways to write their tags, come back as their events, and the parser does not
      fail. */
  lemma {:induction false} StreamParses(ds: seq<Document>, bare: bool)
    requires forall i :: 0 <= i < |ds| ==> Good(ds[i])
    requires bare && ds != [] ==> ds[0].head == [] && ds[0].body != Left
    ensures Calls(Parsing(Stream(ds, bare), AtStreamStart, [], [])) ==
      Outcome([StreamStart] + DocumentEvents(ds), false)
  {
    hide InsideMove, Lift, Tokens, Events, Plain, Emits, After, Documents, DocumentMove, Calls, DocumentEvents, Good,
         BehindStart;
    var start := Parsing(Stream(ds, bare), AtStreamStart, [], []);
    var p := Parsing(Stream(ds, bare)[1..], AtImplicitDocument, [], []);
    assert Next(start) == Moved(StreamStart, p);
    CallsStep(start);
    if bare && ds != [] {
      BareRun(p, ds);
    } else {
      Beginning(ds, 0);
      DocumentsRun(p, ds, 0);
    }
  }

  lemma {:induction false} BareRun(p: Parsing, ds: seq<Document>)
    requires ds != [] && (forall i :: 0 <= i < |ds| ==> Good(ds[i])) && ds[0].body != Left && ds[0].head == []
    requires p == Parsing(BehindStart(ds), AtImplicitDocument, [], [])
    ensures Calls(p) == Outcome(DocumentEvents(ds), false)
  {
    hide InsideMove, Lift, Tokens, Events, Plain, Emits, After, Fit, Documents, Calls, Next, Good, InForce, Ends;
    CallsStep(p);
    var es := Events(Plain(ds[0].body)) + [DocumentEnd];
    GoodBody(ds[0]);
    Opening(ds[0].body, InForce([]), false, false);
    StartsBare(p);
    var q := Parsing(p.tokens, BlockNode, [AtDocumentEnd], InForce([]));
    BodyRun(q, ds[0].body, ds[0].ends, ds[1..]);
    var k := if ds[0].ends == 0 then 0 else ds[0].ends - 1;
    var r := Parsing(Ends(k) + Documents(ds[1..]), AtDocument, [], []);
    CallsInside(q, es, r);
    DocumentsRun(r, ds[1..], k);
  }
}
