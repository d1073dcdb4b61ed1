/** How the tokens of the YAML scanner lie in the text: what stands between two of them, what
    each of them begins with, and that block collections follow the columns. */
module YamlLayout {
  import opened YamlStates
  import opened YamlTokens

  function CharAt(text: string, i: nat): char {
    if i < |text| then text[i] else '\0'
  }

  const BOM := '\U{FEFF}'

  predicate IsBreak(c: char) {
    c == '\r' || c == '\n' || c == '\U{85}' || c == '\U{2028}' || c == '\U{2029}'
  }

  predicate IsBlank(c: char) {
    c == ' ' || c == '\t'
  }

  predicate IsBlankZ(c: char) {
    IsBlank(c) || IsBreak(c) || c == '\0'
  }

  /** The characters that no plain scalar starts with, unless something else follows. */
  predicate IsIndicator(c: char) {
    c == '-' || c == '?' || c == ':' || c == ',' || c == '[' || c == ']' || c == '{' || c == '}' || c == '#' ||
    c == '&' || c == '*' || c == '!' || c == '|' || c == '>' || c == '\'' || c == '"' || c == '%' || c == '@' ||
    c == '`'
  }

  function Skipped(m: Mark, n: nat): Mark {
    Mark(m.index + n, m.line, m.column + n)
  }

  // ---------- what stands between two tokens ----------

  /** Place `i` is behind a '#', at `a` or later, with no line break between. */
  predicate InComment(text: string, a: nat, i: nat) {
    exists h :: a <= h < i && CharAt(text, h) == '#' && OneLine(text, h, i)
  }

  predicate OneLine(text: string, a: nat, i: nat) {
    forall k :: a <= k < i ==> !IsBreak(CharAt(text, k))
  }

  /** A line begins at place `i`, when the last token ended at `from`. */
  predicate LineStart(text: string, from: Mark, i: nat) {
    if i <= from.index then from.column == 0 else IsBreak(CharAt(text, i - 1))
  }

  /** A character that belongs to no token: a blank, a line break, a byte order mark at the
      beginning of a line, or part of a comment. */
  predicate Idle(text: string, from: Mark, i: nat) {
    var c := CharAt(text, i);
    c != '\0' &&
    (IsBlank(c) || IsBreak(c) || (c == BOM && LineStart(text, from, i)) || c == '#' || InComment(text, from.index, i))
  }

  predicate Passed(text: string, from: Mark, to: nat) {
    from.index <= to && forall i :: from.index <= i < to ==> Idle(text, from, i)
  }

  /** Only such characters stand between, and no more of them follow. */
  predicate Gap(text: string, from: Mark, to: Mark) {
    var c := CharAt(text, to.index);
    Passed(text, from, to.index) &&
    (c == '\0' ||
     (&& c != ' ' && c != '#' && !IsBreak(c) && !InComment(text, from.index, to.index)
      && (to.column == 0 <==> LineStart(text, from, to.index)) && !(c == BOM && to.column == 0)))
  }

  lemma {:induction false} CommentStep(text: string, a: nat, i: nat)
    requires a <= i
    ensures InComment(text, a, i + 1) <==>
            !IsBreak(CharAt(text, i)) && (CharAt(text, i) == '#' || InComment(text, a, i))
    ensures !InComment(text, a, a)
  {
    var c := CharAt(text, i);
    if c == '#' {
      assert OneLine(text, i, i + 1) <==> !IsBreak(c);
    }
    if InComment(text, a, i) {
      var h :| a <= h < i && CharAt(text, h) == '#' && OneLine(text, h, i);
      assert OneLine(text, h, i + 1) <==> !IsBreak(c);
    }
  }

  lemma {:induction false} LineMore(text: string, a: nat, i: nat)
    requires a <= i
    ensures OneLine(text, a, i + 1) <==> OneLine(text, a, i) && !IsBreak(CharAt(text, i))
  {
  }

  lemma {:induction false} PassedMore(text: string, from: Mark, to: nat)
    requires Passed(text, from, to) && Idle(text, from, to)
    ensures Passed(text, from, to + 1)
  {
  }

  /** Where one token may begin, another one may as well. */
  lemma {:induction false} GapAgain(text: string, from: Mark, to: Mark)
    requires Gap(text, from, to)
    ensures Gap(text, to, to)
  {
    CommentStep(text, to.index, to.index);
  }

  // ---------- what a token begins with ----------

  predicate ScalarStart(c: char, second: char, flow: bool) {
    || c == '\'' || c == '"' || ((c == '|' || c == '>') && !flow)
    || (!IsBlankZ(c) && !IsIndicator(c))
    || (c == '-' && !IsBlankZ(second))
    || (!flow && (c == '?' || c == ':') && !IsBlankZ(second))
  }

  /** Three times `c` and then a blank or nothing. */
  predicate Triple(text: string, i: nat, c: char) {
    CharAt(text, i) == c && CharAt(text, i + 1) == c && CharAt(text, i + 2) == c && IsBlankZ(CharAt(text, i + 3))
  }

  /** What means something else in the first column. */
  predicate Marker(text: string, m: Mark) {
    m.column == 0 && (CharAt(text, m.index) == '%' || Triple(text, m.index, '-') || Triple(text, m.index, '.'))
  }

  /** The characters at the start of a token are those that call for it, inside a flow
      collection or not; and it is as long as they are, or reaches further if it has a text. */
  predicate Just(text: string, t: Lexeme, flow: bool) {
    var c, second := CharAt(text, t.start.index), CharAt(text, t.start.index + 1);
    var one := t.end == Skipped(t.start, 1);
    match t.token
    case StreamStartToken => t == Mere(StreamStartToken, Mark(0, 0, 0))
    case StreamEndToken => c == '\0' && t.end == t.start
    case BlockSequenceStart => t.end == t.start
    case BlockMappingStart => t.end == t.start
    case BlockEnd => t.end == t.start
    case Key => t.end == t.start || (one && c == '?' && (flow || IsBlankZ(second)))
    case Value => one && c == ':' && (flow || IsBlankZ(second))
    case BlockEntry => one && c == '-' && IsBlankZ(second)
    case FlowSequenceStart => one && c == '['
    case FlowSequenceEnd => one && c == ']'
    case FlowMappingStart => one && c == '{'
    case FlowMappingEnd => one && c == '}'
    case FlowEntry => one && c == ','
    case DocumentStartToken => t.start.column == 0 && Triple(text, t.start.index, '-') && t.end == Skipped(t.start, 3)
    case DocumentEndToken => t.start.column == 0 && Triple(text, t.start.index, '.') && t.end == Skipped(t.start, 3)
    case VersionDirective(_, _) => t.start.column == 0 && c == '%' && Before(t.start, t.end)
    case TagDirective(_, _) => t.start.column == 0 && c == '%' && Before(t.start, t.end)
    case AliasToken(_) => c == '*' && Before(t.start, t.end)
    case Anchor(_) => c == '&' && Before(t.start, t.end)
    case Tag(_, _) => c == '!' && Before(t.start, t.end)
    case ScalarToken(_) => ScalarStart(c, second, flow) && !Marker(text, t.start) && Before(t.start, t.end)
  }

  /** A KEY that was put before the token where the key begins. */
  predicate Hung(t: Lexeme) {
    t.token == Key && t.start == t.end
  }

  // ---------- columns ----------

  /** The columns of the block collections that are open after these tokens. */
  function Columns(ts: seq<Lexeme>): seq<int> {
    if ts == [] then [] else ColumnsBy(Columns(ts[..|ts| - 1]), ts[|ts| - 1])
  }

  function ColumnsBy(open: seq<int>, t: Lexeme): seq<int> {
    if Opens(t.token) then open + [t.start.column]
    else if t.token == BlockEnd && open != [] then open[..|open| - 1]
    else open
  }

  function Top(open: seq<int>): int {
    if open == [] then -1 else open[|open| - 1]
  }

  /** The place of a token outside the flow collections: collections start deeper than the one
      around them, their entries stand in their column, nothing stands before it, and a
      collection ends at a column before it, or where the document does. */
  predicate Placed(text: string, t: Lexeme, open: seq<int>, flow: bool) {
    var column := t.start.column;
    if flow then !Opens(t.token) && t.token != BlockEnd
    else
      match t.token
      case BlockSequenceStart => Top(open) < column
      case BlockMappingStart => Top(open) < column
      case BlockEnd =>
        open != [] && (column < Top(open) || CharAt(text, t.start.index) == '\0' || Marker(text, t.start))
      case BlockEntry => column == Top(open)
      case Key => column == Top(open)
      case StreamStartToken => open == []
      case StreamEndToken => open == []
      case DocumentStartToken => open == []
      case DocumentEndToken => open == []
      case VersionDirective(_, _) => open == []
      case TagDirective(_, _) => open == []
      case _ => Top(open) <= column
  }

  predicate Fine(text: string, t: Lexeme, open: seq<int>, flow: bool) {
    Just(text, t, flow) && Placed(text, t, open, flow)
  }

  /** Every token is called for and in its place. */
  ghost predicate Laid(text: string, ts: seq<Lexeme>) {
    forall i :: 0 <= i < |ts| ==> Fine(text, ts[i], Columns(ts[..i]), Flow(ts[..i]) != 0)
  }

  /** The tokens cover the text: only gaps are between them. */
  ghost predicate Tiled(text: string, ts: seq<Lexeme>) {
    forall i :: 0 <= i < |ts| - 1 ==> Gap(text, ts[i].end, ts[i + 1].start)
  }

  /** A KEY without '?' stands before a token that a simple key can begin with. */
  ghost predicate KeysHeaded(ts: seq<Lexeme>) {
    forall i :: 0 <= i < |ts| && Hung(ts[i]) ==>
      i + 1 < |ts| && StartsKey(ts[i + 1].token) && ts[i + 1].start == ts[i].start
  }

  ghost predicate Layout(text: string, ts: seq<Lexeme>) {
    Laid(text, ts) && Tiled(text, ts) && KeysHeaded(ts)
  }

  // ---------- tokens at the end ----------

  lemma {:induction false} ColumnsAppend(ts: seq<Lexeme>, t: Lexeme)
    ensures Columns(ts + [t]) == ColumnsBy(Columns(ts), t)
  {
    assert (ts + [t])[..|ts|] == ts;
  }

  lemma {:induction false} LaidAppend(text: string, ts: seq<Lexeme>, t: Lexeme)
    requires Laid(text, ts) && Fine(text, t, Columns(ts), Flow(ts) != 0)
    ensures Laid(text, ts + [t])
  {
    hide Fine;
    var all := ts + [t];
    forall i | 0 <= i < |all| ensures Fine(text, all[i], Columns(all[..i]), Flow(all[..i]) != 0) {
      if i < |ts| {
        assert all[..i] == ts[..i];
      } else {
        assert all[..i] == ts;
      }
    }
  }

  lemma {:induction false} LayoutAppend(text: string, ts: seq<Lexeme>, t: Lexeme)
    requires Layout(text, ts) && ts != [] && !Hung(t) && Gap(text, ts[|ts| - 1].end, t.start)
    requires Fine(text, t, Columns(ts), Flow(ts) != 0)
    ensures Layout(text, ts + [t])
  {
    hide Laid, Fine, Gap;
    LaidAppend(text, ts, t);
  }

  lemma {:induction false} LayoutPrefix(text: string, ts: seq<Lexeme>, some: seq<Lexeme>)
    requires Layout(text, ts) && some <= ts
    ensures Laid(text, some) && Tiled(text, some)
  {
    hide Fine, Gap, KeysHeaded;
    forall i | 0 <= i < |some| ensures Fine(text, some[i], Columns(some[..i]), Flow(some[..i]) != 0) {
      assert some[..i] == ts[..i] && some[i] == ts[i];
    }
    forall i | 0 <= i < |some| - 1 ensures Gap(text, some[i].end, some[i + 1].start) {
      assert some[i] == ts[i] && some[i + 1] == ts[i + 1];
    }
  }

  // ---------- the places of the possible keys ----------

  /** What may stand behind the start of a simple key outside the flow collections. */
  predicate Quiet(t: Token, flow: bool) {
    !Opens(t) && t != BlockEnd && (!flow ==> StartsKey(t))
  }

  ghost predicate QuietFrom(ts: seq<Lexeme>, n: nat) {
    forall j :: n <= j < |ts| ==> Quiet(ts[j].token, Flow(ts[..j]) != 0)
  }

  /** A possible key of level `i` begins inside `i` flow collections, and no KEY is before it. */
  ghost predicate KeyPlace(k: SimpleKey, i: nat, ts: seq<Lexeme>) {
    k.possible ==> 0 < k.number < |ts| && Flow(ts[..k.number]) == i && !Hung(ts[k.number - 1])
  }

  ghost predicate KeyPlaces(ks: seq<SimpleKey>, ts: seq<Lexeme>, indent: int) {
    && (forall i :: 0 <= i < |ks| ==> KeyPlace(ks[i], i, ts))
    && (ks != [] && ks[0].possible ==> QuietFrom(ts, ks[0].number) && indent <= ks[0].mark.column)
  }

  lemma {:induction false} PlacesFewer(ks: seq<SimpleKey>, fewer: seq<SimpleKey>, ts: seq<Lexeme>, indent: int)
    requires KeyPlaces(ks, ts, indent) && |fewer| <= |ks|
    requires forall i :: 0 <= i < |fewer| ==> fewer[i].possible ==> fewer[i] == ks[i]
    ensures KeyPlaces(fewer, ts, indent)
  {
    hide QuietFrom;
    assert forall i :: 0 <= i < |fewer| && fewer[i].possible ==> KeyPlace(ks[i], i, ts);
  }

  lemma {:induction false} PlaceAppend(k: SimpleKey, i: nat, ts: seq<Lexeme>, t: Lexeme)
    requires KeyPlace(k, i, ts)
    ensures KeyPlace(k, i, ts + [t])
  {
    if k.possible {
      assert (ts + [t])[..k.number] == ts[..k.number];
    }
  }

  lemma {:induction false} QuietAppend(ts: seq<Lexeme>, n: nat, t: Lexeme)
    requires QuietFrom(ts, n) && Quiet(t.token, Flow(ts) != 0)
    ensures QuietFrom(ts + [t], n)
  {
    hide Quiet;
    var all := ts + [t];
    forall j | n <= j < |all| ensures Quiet(all[j].token, Flow(all[..j]) != 0) {
      if j < |ts| {
        assert all[..j] == ts[..j];
      } else {
        assert all[..j] == ts;
      }
    }
  }

  /** One more token, quiet if the outermost key is possible. */
  lemma {:induction false} PlacesAppend(ks: seq<SimpleKey>, ts: seq<Lexeme>, indent: int, t: Lexeme)
    requires KeyPlaces(ks, ts, indent) && (ks != [] && ks[0].possible ==> Quiet(t.token, Flow(ts) != 0))
    ensures KeyPlaces(ks, ts + [t], indent)
  {
    hide QuietFrom, KeyPlace, Quiet;
    forall i | 0 <= i < |ks| ensures KeyPlace(ks[i], i, ts + [t]) {
      PlaceAppend(ks[i], i, ts, t);
    }
    if ks != [] && ks[0].possible {
      QuietAppend(ts, ks[0].number, t);
    }
  }

  /** The key that begins with this token, on the innermost level. */
  lemma {:induction false} PlacesSave(ks: seq<SimpleKey>, ts: seq<Lexeme>, indent: int, k: SimpleKey, t: Lexeme)
    requires KeyPlaces(ks, ts, indent) && ks != [] && ts != [] && !Hung(ts[|ts| - 1]) && StartsKey(t.token)
    requires Flow(ts) == |ks| - 1 && (|ks| == 1 ==> indent <= t.start.column)
    requires k == ks[|ks| - 1] || (k.number == |ts| && k.mark == t.start)
    ensures KeyPlaces(ks[|ks| - 1 := k], ts + [t], indent)
  {
    hide QuietFrom, KeyPlace;
    var n := |ks| - 1;
    PlacesAppend(ks, ts, indent, t);
    if k == ks[n] {
      assert ks[n := k] == ks;
      return;
    }
    var next := ks[n := k];
    PlaceNew(k, n, ts, t);
    forall i | 0 <= i < |next| ensures KeyPlace(next[i], i, ts + [t]) {
      if i < n {
        assert next[i] == ks[i];
      }
    }
    if n == 0 {
      QuietNew(ts, t);
    } else {
      assert next[0] == ks[0];
    }
  }

  lemma {:induction false} PlaceNew(k: SimpleKey, i: nat, ts: seq<Lexeme>, t: Lexeme)
    requires ts != [] && !Hung(ts[|ts| - 1]) && Flow(ts) == i && k.number == |ts|
    ensures KeyPlace(k, i, ts + [t])
  {
    assert (ts + [t])[..|ts|] == ts;
  }

  lemma {:induction false} QuietNew(ts: seq<Lexeme>, t: Lexeme)
    requires StartsKey(t.token)
    ensures QuietFrom(ts + [t], |ts|)
  {
  }

  lemma {:induction false} PlacesPush(ks: seq<SimpleKey>, ts: seq<Lexeme>, indent: int)
    requires KeyPlaces(ks, ts, indent) && ks != []
    ensures KeyPlaces(ks + [NO_KEY], ts, indent)
  {
    hide QuietFrom;
    var next := ks + [NO_KEY];
    forall i | 0 <= i < |next| ensures KeyPlace(next[i], i, ts) {
      if i < |ks| {
        assert next[i] == ks[i];
      }
    }
  }

  // ---------- tokens put before others ----------

  /** Behind quiet tokens the open collections are the same. */
  lemma {:induction false} QuietColumns(ts: seq<Lexeme>, n: nat, i: nat)
    requires n <= i <= |ts| && forall j :: n <= j < i ==> !Opens(ts[j].token) && ts[j].token != BlockEnd
    ensures Columns(ts[..i]) == Columns(ts[..n])
  {
    if n < i {
      QuietColumns(ts, n, i - 1);
      assert ts[..i] == ts[..i - 1] + [ts[i - 1]];
      ColumnsAppend(ts[..i - 1], ts[i - 1]);
    }
  }

  /** What is open behind an inserted token. */
  lemma {:induction false} ColumnsInsert(ts: seq<Lexeme>, n: nat, x: Lexeme, i: nat)
    requires n <= i <= |ts| && !Opens(x.token) && x.token != BlockEnd
    ensures Columns((ts[..n] + [x] + ts[n..])[..i + 1]) == Columns(ts[..i])
  {
    hide Columns;
    var all := ts[..n] + [x] + ts[n..];
    InsertLast(ts, n, x, i);
    if i == n {
      ColumnsAppend(ts[..n], x);
    } else {
      ColumnsInsert(ts, n, x, i - 1);
      ColumnsAppend(all[..i], ts[i - 1]);
      ColumnsAppend(ts[..i - 1], ts[i - 1]);
    }
  }

  lemma {:induction false} InsertLast(ts: seq<Lexeme>, n: nat, x: Lexeme, i: nat)
    requires n <= i <= |ts|
    ensures var all := ts[..n] + [x] + ts[n..];
      && (i == n ==> all[..i + 1] == ts[..n] + [x])
      && (i > n ==> all[..i + 1] == all[..i] + [ts[i - 1]] && ts[..i] == ts[..i - 1] + [ts[i - 1]])
  {
  }

  lemma {:induction false} FlowBehind(ts: seq<Lexeme>, n: nat, xs: seq<Lexeme>, i: nat)
    requires n <= i <= |ts| && forall j :: 0 <= j < |xs| ==> xs[j].token == Key || xs[j].token == BlockMappingStart
    ensures Flow((ts[..n] + xs + ts[n..])[..i + |xs|]) == Flow(ts[..i])
  {
    hide Flow;
    var all := ts[..n] + xs + ts[n..];
    var part := ts[..i];
    assert all[..i + |xs|] == part[..n] + xs + part[n..];
    FlowInsert(part, n, xs);
  }

  lemma {:induction false} InsertAt(ts: seq<Lexeme>, n: nat, xs: seq<Lexeme>, i: nat)
    requires n <= |ts|
    ensures var all := ts[..n] + xs + ts[n..];
      && (i <= n ==> all[..i] == ts[..i]) && (i < n ==> all[i] == ts[i])
      && (n <= i < n + |xs| ==> all[i] == xs[i - n])
      && (n + |xs| <= i < |all| ==> all[i] == ts[i - |xs|])
  {
  }

  /** A KEY alone: nothing else changes. */
  lemma {:induction false} LaidKey(text: string, ts: seq<Lexeme>, n: nat)
    requires Laid(text, ts) && n < |ts|
    requires Flow(ts[..n]) != 0 || ts[n].start.column == Top(Columns(ts[..n]))
    ensures Laid(text, ts[..n] + [Mere(Key, ts[n].start)] + ts[n..])
  {
    hide Flow, Columns, Fine;
    var x := Mere(Key, ts[n].start);
    var all := ts[..n] + [x] + ts[n..];
    forall i | 0 <= i < |all| ensures Fine(text, all[i], Columns(all[..i]), Flow(all[..i]) != 0) {
      InsertAt(ts, n, [x], i);
      if i > n {
        ColumnsInsert(ts, n, x, i - 1);
        FlowBehind(ts, n, [x], i - 1);
      } else if i == n {
        KeyFine(text, x.start, Columns(ts[..n]), Flow(ts[..n]) != 0);
      }
    }
  }

  lemma {:induction false} KeyFine(text: string, at: Mark, open: seq<int>, flow: bool)
    requires flow || at.column == Top(open)
    ensures Fine(text, Mere(Key, at), open, flow)
  {
  }

  lemma {:induction false} OpenFine(text: string, at: Mark, open: seq<int>)
    requires Top(open) < at.column
    ensures Fine(text, Mere(BlockMappingStart, at), open, false)
  {
  }

  /** The start of a mapping, where it is deeper than what is open; the tokens behind it are
      quiet and not before its column. */
  lemma {:induction false} LaidOpen(text: string, ts: seq<Lexeme>, n: nat)
    requires Laid(text, ts) && n < |ts| && QuietFrom(ts, n)
    requires Flow(ts[..n]) == 0 && Top(Columns(ts[..n])) < ts[n].start.column
    requires forall j :: n <= j < |ts| ==> ts[n].start.column <= ts[j].start.column
    ensures Laid(text, ts[..n] + [Mere(BlockMappingStart, ts[n].start)] + ts[n..])
  {
    hide Flow, Columns, Fine, Quiet;
    var o := Mere(BlockMappingStart, ts[n].start);
    var all := ts[..n] + [o] + ts[n..];
    forall i | 0 <= i < |all| ensures Fine(text, all[i], Columns(all[..i]), Flow(all[..i]) != 0) {
      InsertAt(ts, n, [o], i);
      if i > n {
        var flow := Flow(ts[..i - 1]) != 0;
        FlowBehind(ts, n, [o], i - 1);
        OpenedColumns(ts, n, o, i);
        assert Quiet(ts[i - 1].token, flow);
        QuietFine(text, ts[i - 1], Columns(ts[..i - 1]), Columns(ts[..n]) + [o.start.column], flow);
      } else if i == n {
        OpenFine(text, o.start, Columns(ts[..n]));
      }
    }
  }

  lemma {:induction false} QuietFine(text: string, t: Lexeme, was: seq<int>, open: seq<int>, flow: bool)
    requires Fine(text, t, was, flow) && Quiet(t.token, flow) && open != [] && open[|open| - 1] <= t.start.column
    ensures Fine(text, t, open, flow)
  {
  }

  lemma {:induction false} OpenedColumns(ts: seq<Lexeme>, n: nat, o: Lexeme, i: nat)
    requires n < i <= |ts| && Opens(o.token) && QuietFrom(ts, n)
    ensures Columns((ts[..n] + [o] + ts[n..])[..i]) == Columns(ts[..n]) + [o.start.column]
  {
    var all := ts[..n] + [o] + ts[n..];
    assert all[..n + 1] == ts[..n] + [o];
    ColumnsAppend(ts[..n], o);
    forall j | n + 1 <= j < i ensures !Opens(all[j].token) && all[j].token != BlockEnd {
      assert all[j] == ts[j - 1] && Quiet(ts[j - 1].token, Flow(ts[..j - 1]) != 0);
    }
    QuietColumns(all, n + 1, i);
  }

  lemma {:induction false} TiledInsert(text: string, ts: seq<Lexeme>, n: nat, x: Lexeme)
    requires Tiled(text, ts) && 0 < n < |ts| && x.start == x.end == ts[n].start
    ensures Tiled(text, ts[..n] + [x] + ts[n..])
  {
    hide Gap;
    var all := ts[..n] + [x] + ts[n..];
    assert Gap(text, ts[n - 1].end, ts[n - 1 + 1].start);
    GapAgain(text, ts[n - 1].end, ts[n].start);
    forall i | 0 <= i < |all| - 1 ensures Gap(text, all[i].end, all[i + 1].start) {
      InsertAt(ts, n, [x], i);
      InsertAt(ts, n, [x], i + 1);
      if i < n - 1 {
        assert Gap(text, ts[i].end, ts[i + 1].start);
      } else if i > n {
        assert Gap(text, ts[i - 1].end, ts[i - 1 + 1].start);
      }
    }
  }

  lemma {:induction false} HeadedInsertKey(ts: seq<Lexeme>, n: nat)
    requires KeysHeaded(ts) && 0 < n < |ts| && StartsKey(ts[n].token) && !Hung(ts[n - 1])
    ensures KeysHeaded(ts[..n] + [Mere(Key, ts[n].start)] + ts[n..])
  {
    var x := Mere(Key, ts[n].start);
    var all := ts[..n] + [x] + ts[n..];
    forall i | 0 <= i < |all| && Hung(all[i])
      ensures i + 1 < |all| && StartsKey(all[i + 1].token) && all[i + 1].start == all[i].start
    {
      InsertAt(ts, n, [x], i);
      InsertAt(ts, n, [x], i + 1);
    }
  }

  lemma {:induction false} HeadedInsertOpen(ts: seq<Lexeme>, n: nat, o: Lexeme)
    requires KeysHeaded(ts) && 0 < n < |ts| && !Hung(ts[n - 1]) && !Hung(o)
    ensures KeysHeaded(ts[..n] + [o] + ts[n..])
  {
    var all := ts[..n] + [o] + ts[n..];
    forall i | 0 <= i < |all| && Hung(all[i])
      ensures i + 1 < |all| && StartsKey(all[i + 1].token) && all[i + 1].start == all[i].start
    {
      InsertAt(ts, n, [o], i);
      InsertAt(ts, n, [o], i + 1);
    }
  }

  /** The levels of the scanner are the columns of the open collections. */
  ghost predicate Bars(indents: seq<int>, indent: int, ts: seq<Lexeme>) {
    [-1] + Columns(ts) == indents + [indent]
  }

  lemma {:induction false} BarsTop(indents: seq<int>, indent: int, ts: seq<Lexeme>)
    requires Bars(indents, indent, ts)
    ensures Top(Columns(ts)) == indent && |Columns(ts)| == |indents| && (indents == [] ==> Columns(ts) == [])
  {
    var c := Columns(ts);
    assert ([-1] + c)[|c|] == (indents + [indent])[|indents|];
  }

  lemma {:induction false} BarsSame(indents: seq<int>, indent: int, ts: seq<Lexeme>, t: Lexeme)
    requires Bars(indents, indent, ts) && !Opens(t.token) && t.token != BlockEnd
    ensures Bars(indents, indent, ts + [t])
  {
    hide Columns;
    ColumnsAppend(ts, t);
  }

  lemma {:induction false} BarsOpen(indents: seq<int>, indent: int, ts: seq<Lexeme>, o: Lexeme)
    requires Bars(indents, indent, ts) && Opens(o.token)
    ensures Bars(indents + [indent], o.start.column, ts + [o])
  {
    hide Columns;
    ColumnsAppend(ts, o);
    assert [-1] + (Columns(ts) + [o.start.column as int]) == [-1] + Columns(ts) + [o.start.column as int];
  }

  lemma {:induction false} BarsClose(indents: seq<int>, indent: int, ts: seq<Lexeme>, t: Lexeme)
    requires Bars(indents, indent, ts) && t.token == BlockEnd && indents != []
    ensures Columns(ts) != [] && Bars(indents[..|indents| - 1], indents[|indents| - 1], ts + [t])
  {
    hide Columns;
    ColumnsAppend(ts, t);
    var c := Columns(ts);
    var n := |indents|;
    assert ([-1] + c)[..|c|] == (indents + [indent])[..n];
    assert (indents + [indent])[..n] == indents == indents[..n - 1] + [indents[n - 1]];
    assert ([-1] + c)[..|c|] == [-1] + c[..|c| - 1];
  }

  /** Behind the start of a key that can still be completed, all is on one line. */
  lemma {:induction false} SameLine(ts: seq<Lexeme>, mark: Mark, n: nat)
    requires InOrder(ts) && UpTo(ts, mark) && n < |ts| && ts[n].start.line == mark.line
    ensures forall j :: n <= j < |ts| ==> ts[n].start.column <= ts[j].start.column
  {
    forall j | n <= j < |ts| ensures ts[n].start.column <= ts[j].start.column {
      if n < j {
        assert Reaches(ts[n].start, ts[j].start) && Reaches(ts[j].start, mark);
      }
    }
  }

  /** A simple key is completed: KEY, and the start of its mapping if it is deeper than what
      is open, go before the token where it begins. */
  lemma {:induction false} LayoutKey(text: string, ks: seq<SimpleKey>, ts: seq<Lexeme>, indents: seq<int>, indent: int,
                                     mark: Mark, opens: bool)
    requires Layout(text, ts) && Bars(indents, indent, ts) && KeyPlaces(ks, ts, indent)
    requires ks != [] && ks[|ks| - 1].possible && ks[|ks| - 1].number < |ts|
    requires InOrder(ts) && UpTo(ts, mark) && ks[|ks| - 1].mark.line == mark.line
    requires var k := ks[|ks| - 1]; StartsKey(ts[k.number].token) && ts[k.number].start == k.mark
    requires forall i :: 0 <= i < |ks| - 1 && ks[i].possible ==> ks[i].number < ks[|ks| - 1].number
    requires opens == (|ks| == 1 && indent < ks[|ks| - 1].mark.column)
    ensures var k := ks[|ks| - 1];
      var xs := if opens then [Mere(BlockMappingStart, k.mark), Mere(Key, k.mark)] else [Mere(Key, k.mark)];
      var all, rest := ts[..k.number] + xs + ts[k.number..], ks[|ks| - 1 := k.(possible := false)];
      && Layout(text, all)
      && Bars(if opens then indents + [indent] else indents, if opens then k.mark.column else indent, all)
      && KeyPlaces(rest, all, if opens then k.mark.column else indent)
      && all[|all| - 1] == ts[|ts| - 1]
  {
    hide Layout, Columns, Flow, KeyPlace, QuietFrom, InOrder, UpTo;
    var k := ks[|ks| - 1];
    var n, m := k.number, |ks| - 1;
    assert KeyPlace(ks[m], m, ts);
    PlaceOf(ks[m], m, ts);
    BarsTop(indents, indent, ts);
    InsertLayoutKey(text, ts, n, m, indent);
    var x := Mere(Key, k.mark);
    var one := ts[..n] + [x] + ts[n..];
    InsertKeyBars(indents, indent, ts, n, x);
    var rest := ks[m := k.(possible := false)];
    if m == 0 {
      PlacesNone(rest, one, indent);
      if opens {
        SameLine(ts, mark, n);
        InsertLayoutOpen(text, ts, n, indents, indent);
        var two := ts[..n] + [Mere(BlockMappingStart, k.mark), x] + ts[n..];
        PlacesNone(rest, two, k.mark.column);
      }
    } else {
      InsertKeyPlaces(ks, ts, indent, x);
    }
  }

  lemma {:induction false} PlaceOf(k: SimpleKey, i: nat, ts: seq<Lexeme>)
    requires KeyPlace(k, i, ts) && k.possible
    ensures 0 < k.number < |ts| && Flow(ts[..k.number]) == i && !Hung(ts[k.number - 1])
  {
  }

  lemma {:induction false} PlacesNone(ks: seq<SimpleKey>, ts: seq<Lexeme>, indent: int)
    requires |ks| == 1 && !ks[0].possible
    ensures KeyPlaces(ks, ts, indent)
  {
  }

  /** KEY for a key of level `m`. */
  lemma {:induction false} InsertLayoutKey(text: string, ts: seq<Lexeme>, n: nat, m: nat, indent: int)
    requires Layout(text, ts) && 0 < n < |ts| && StartsKey(ts[n].token) && !Hung(ts[n - 1]) && Flow(ts[..n]) == m
    requires Top(Columns(ts)) == indent
    requires m == 0 ==> QuietFrom(ts, n) && indent <= ts[n].start.column
    ensures m > 0 || indent == ts[n].start.column ==> Layout(text, ts[..n] + [Mere(Key, ts[n].start)] + ts[n..])
  {
    hide Laid, Tiled, KeysHeaded, Flow, Columns, Quiet;
    if m > 0 || indent == ts[n].start.column {
      if m == 0 {
        QuietAll(ts, n);
      }
      LaidKey(text, ts, n);
      TiledInsert(text, ts, n, Mere(Key, ts[n].start));
      HeadedInsertKey(ts, n);
    }
  }

  lemma {:induction false} QuietAll(ts: seq<Lexeme>, n: nat)
    requires n <= |ts| && QuietFrom(ts, n)
    ensures Columns(ts) == Columns(ts[..n])
  {
    hide Columns;
    forall j | n <= j < |ts| ensures !Opens(ts[j].token) && ts[j].token != BlockEnd {
      assert Quiet(ts[j].token, Flow(ts[..j]) != 0);
    }
    QuietColumns(ts, n, |ts|);
    assert ts[..|ts|] == ts;
  }

  lemma {:induction false} InsertKeyBars(indents: seq<int>, indent: int, ts: seq<Lexeme>, n: nat, x: Lexeme)
    requires Bars(indents, indent, ts) && n <= |ts| && x.token == Key
    ensures Bars(indents, indent, ts[..n] + [x] + ts[n..])
  {
    hide Columns;
    var all := ts[..n] + [x] + ts[n..];
    ColumnsInsert(ts, n, x, |ts|);
    assert all[..|ts| + 1] == all && ts[..|ts|] == ts;
  }

  /** The start of the mapping and KEY, for a key outside the flow collections. */
  lemma {:induction false} InsertLayoutOpen(text: string, ts: seq<Lexeme>, n: nat, indents: seq<int>, indent: int)
    requires Layout(text, ts) && 0 < n < |ts| && StartsKey(ts[n].token) && !Hung(ts[n - 1]) && Flow(ts[..n]) == 0
    requires Bars(indents, indent, ts) && indent < ts[n].start.column && QuietFrom(ts, n)
    requires forall j :: n <= j < |ts| ==> ts[n].start.column <= ts[j].start.column
    ensures var at := ts[n].start;
      var all := ts[..n] + [Mere(BlockMappingStart, at), Mere(Key, at)] + ts[n..];
      Layout(text, all) && Bars(indents + [indent], at.column, all)
  {
    hide Laid, Tiled, KeysHeaded, Flow, Columns, Quiet;
    var at := ts[n].start;
    var o, x := Mere(BlockMappingStart, at), Mere(Key, at);
    var open := ts[..n] + [o] + ts[n..];
    BarsTop(indents, indent, ts);
    QuietAll(ts, n);
    LaidOpen(text, ts, n);
    TiledInsert(text, ts, n, o);
    HeadedInsertOpen(ts, n, o);
    InsertAt(ts, n, [o], n);
    InsertAt(ts, n, [o], n + 1);
    TwoInserted(ts, n, o, x);
    OpenedColumns(ts, n, o, n + 1);
    LaidKey(text, open, n + 1);
    TiledInsert(text, open, n + 1, x);
    HeadedInsertKey(open, n + 1);
    OpenedBars(ts, n, o, indents, indent);
    InsertKeyBars(indents + [indent], at.column, open, n + 1, x);
  }

  lemma {:induction false} TwoInserted(ts: seq<Lexeme>, n: nat, o: Lexeme, x: Lexeme)
    requires n < |ts|
    ensures var open := ts[..n] + [o] + ts[n..];
      open[..n + 1] + [x] + open[n + 1..] == ts[..n] + [o, x] + ts[n..] && open[n] == o && open[n + 1] == ts[n]
  {
  }

  lemma {:induction false} OpenedBars(ts: seq<Lexeme>, n: nat, o: Lexeme, indents: seq<int>, indent: int)
    requires n < |ts| && Opens(o.token) && QuietFrom(ts, n) && Bars(indents, indent, ts)
    ensures Bars(indents + [indent], o.start.column, ts[..n] + [o] + ts[n..])
  {
    hide Columns, Flow;
    var all := ts[..n] + [o] + ts[n..];
    QuietAll(ts, n);
    forall j | n + 1 <= j < |all| ensures !Opens(all[j].token) && all[j].token != BlockEnd {
      assert all[j] == ts[j - 1] && Quiet(ts[j - 1].token, Flow(ts[..j - 1]) != 0);
    }
    OpenedColumns(ts, n, o, n + 1);
    QuietColumns(all, n + 1, |all|);
    assert all[..|all|] == all;
    assert [-1] + (Columns(ts) + [o.start.column as int]) == [-1] + Columns(ts) + [o.start.column as int];
  }

  /** A KEY inside flow collections leaves the other keys where they are. */
  lemma {:induction false} InsertKeyPlaces(ks: seq<SimpleKey>, ts: seq<Lexeme>, indent: int, x: Lexeme)
    requires KeyPlaces(ks, ts, indent) && |ks| > 1 && ks[|ks| - 1].possible && ks[|ks| - 1].number < |ts|
    requires x.token == Key
    requires forall i :: 0 <= i < |ks| - 1 && ks[i].possible ==> ks[i].number < ks[|ks| - 1].number
    ensures var k := ks[|ks| - 1];
      KeyPlaces(ks[|ks| - 1 := k.(possible := false)], ts[..k.number] + [x] + ts[k.number..], indent)
  {
    hide Flow, QuietFrom, Quiet;
    var m := |ks| - 1;
    var k := ks[m];
    var all, rest := ts[..k.number] + [x] + ts[k.number..], ks[m := k.(possible := false)];
    assert KeyPlace(ks[m], m, ts);
    forall i | 0 <= i < |rest| ensures KeyPlace(rest[i], i, all) {
      if i < m && ks[i].possible {
        assert KeyPlace(ks[i], i, ts);
        InsertAt(ts, k.number, [x], ks[i].number);
        InsertAt(ts, k.number, [x], ks[i].number - 1);
      }
    }
    if ks[0].possible {
      QuietInsert(ts, ks[0].number, k.number, x);
    }
  }

  lemma {:induction false} QuietInsert(ts: seq<Lexeme>, a: nat, n: nat, x: Lexeme)
    requires QuietFrom(ts, a) && a < n < |ts| && x.token == Key && Flow(ts[..n]) != 0
    ensures QuietFrom(ts[..n] + [x] + ts[n..], a)
  {
    hide Flow;
    var all := ts[..n] + [x] + ts[n..];
    forall j | a <= j < |all| ensures Quiet(all[j].token, Flow(all[..j]) != 0) {
      InsertAt(ts, n, [x], j);
      if j < n {
        assert Quiet(ts[j].token, Flow(ts[..j]) != 0);
      } else if j > n {
        assert Quiet(ts[j - 1].token, Flow(ts[..j - 1]) != 0);
        FlowBehind(ts, n, [x], j - 1);
      }
    }
  }

  // ---------- what the layout says about the text ----------

  /** Between two neighbouring tokens only idle characters are passed over. */
  lemma {:induction false} BetweenTokens(text: string, ts: seq<Lexeme>, i: nat, j: nat)
    requires Tiled(text, ts) && i + 1 < |ts| && ts[i].end.index <= j < ts[i + 1].start.index
    ensures Idle(text, ts[i].end, j)
  {
    assert Gap(text, ts[i].end, ts[i + 1].start);
  }

  /** A text gives no token but the start and the end of the stream if and only if all its
      characters, up to a NUL or to its end, are idle. */
  lemma {:induction false} EmptyIff(text: string, ts: seq<Lexeme>)
    requires Layout(text, ts) && Headed(ts) && Framed(ts) && Ended(ts) && Nested(ts)
    ensures |ts| == 2 <==> exists e :: CharAt(text, e) == '\0' && Passed(text, Mark(0, 0, 0), e)
  {
    hide Flow, Columns, Gap, Passed;
    EndsApart(ts);
    assert Fine(text, ts[0], Columns(ts[..0]), Flow(ts[..0]) != 0);
    assert Gap(text, ts[0].end, ts[0 + 1].start);
    GapParts(text, ts[0].end, ts[1].start);
    if |ts| == 2 {
      assert Fine(text, ts[1], Columns(ts[..1]), Flow(ts[..1]) != 0);
      assert CharAt(text, ts[1].start.index) == '\0';
    }
    FirstChar(text, ts);
    forall e | CharAt(text, e) == '\0' && Passed(text, Mark(0, 0, 0), e) ensures |ts| == 2 {
      FirstStop(text, ts[1].start, e);
    }
  }

  lemma {:induction false} EndsApart(ts: seq<Lexeme>)
    requires Framed(ts) && Ended(ts)
    ensures |ts| >= 2 && ts[0].token == StreamStartToken
  {
    assert (ts[0].token == StreamStartToken <==> 0 == 0);
    assert ts[|ts| - 1].token == StreamEndToken;
  }

  lemma {:induction false} GapParts(text: string, from: Mark, to: Mark)
    requires Gap(text, from, to)
    ensures Passed(text, from, to.index)
  {
  }

  /** The first token does not begin before the first character that is not idle. */
  lemma {:induction false} FirstStop(text: string, to: Mark, e: nat)
    requires Gap(text, Mark(0, 0, 0), to) && CharAt(text, e) == '\0' && Passed(text, Mark(0, 0, 0), e)
    requires CharAt(text, to.index) != '\t'
    ensures to.index == e
  {
    var m := Mark(0, 0, 0);
    assert !Idle(text, m, to.index) && !Idle(text, m, e);
  }

  /** A token that has characters of its own. */
  lemma {:induction false} RealChar(text: string, t: Lexeme, flow: bool)
    requires Just(text, t, flow) && t.start != t.end
    ensures var c := CharAt(text, t.start.index); c != '\t' && c != '\0'
  {
  }

  /** Behind the start of the stream stands a character that calls for a token, or nothing
      and the end of the stream. */
  lemma {:induction false} FirstChar(text: string, ts: seq<Lexeme>)
    requires Layout(text, ts) && Headed(ts) && Framed(ts) && Nested(ts) && |ts| >= 2
    ensures var c := CharAt(text, ts[1].start.index); c != '\t' && (c == '\0' ==> ts[1].token == StreamEndToken)
  {
    hide Columns, Flow, Depth, Nested, Placed, Tiled;
    NoEnd(ts);
    var r := 1;
    if Opens(ts[1].token) {
      assert Heads(ts[1].token, ts[2].token) && ts[2].start == ts[1].start;
      r := 2;
    }
    if Hung(ts[r]) {
      assert StartsKey(ts[r + 1].token) && ts[r + 1].start == ts[r].start;
      r := r + 1;
    }
    assert Fine(text, ts[r], Columns(ts[..r]), Flow(ts[..r]) != 0);
    if ts[r].token != StreamEndToken {
      RealChar(text, ts[r], Flow(ts[..r]) != 0);
    }
  }

  lemma {:induction false} NoEnd(ts: seq<Lexeme>)
    requires Framed(ts) && Nested(ts) && |ts| >= 2
    ensures ts[1].token != BlockEnd && ts[1].token != StreamStartToken
  {
    assert (ts[0].token == StreamStartToken <==> 0 == 0);
    DepthOne(ts[0]);
    DepthOne(ts[1]);
    assert ts[..2] == [ts[0]] + [ts[1]];
    DepthAppend([ts[0]], [ts[1]]);
    assert 0 <= Depth(ts[..2]);
  }
}
