/** `hev_mapped_dns_handle`: rewrites a query in place, finds a record for each address
    question and fills in the reply. */
module DnsHandle {
  import opened Basics
  import opened RbShape
  import opened KeyOrder
  import opened Address
  import opened MappedDns
  import opened DnsMessage
  import Lru

  /** Turns the length octets of the name at `off` into dots. */
  method DotName(rb: array<Byte>, qlen: nat, off: nat) returns (ok: bool, e: nat)
    requires Readable(rb[..], qlen) && off <= qlen
    modifies rb
    ensures var q := old(rb[..]);
      var end := NameEnd(q, qlen, off);
      && ok == end.Some?
      && (ok ==> e == end.value && rb[..] == q[..off] + Masked(q, qlen, off) + q[e..])
  {
    ghost var q := rb[..];
    e := off;
    while rb[e] != 0
      invariant off <= e <= qlen
      invariant rb[e..] == q[e..] && rb[..off] == q[..off]
      invariant NameEnd(q, qlen, off) == NameEnd(q, qlen, e)
      invariant NameEnd(q, qlen, e).Some? ==> Masked(q, qlen, off) == rb[off..e] + Masked(q, qlen, e)
      decreases qlen - e
    {
      var poff := e;
      ghost var now := rb[..];
      assert rb[e] == rb[e..][0] == q[e];
      e := e + 1 + rb[e];
      if e >= qlen {
        return false, e;
      }
      rb[poff] := DOT;
      DotStep(q, qlen, off, now, rb[..], poff, e);
    }
    assert rb[e] == rb[e..][0] == q[e];
    assert rb[..] == rb[..off] + rb[off..e] + rb[e..];
    ok := true;
  }

  /** One label done. */
  lemma {:induction false} DotStep(q: seq<Byte>, qlen: nat, off: nat, now: seq<Byte>, now': seq<Byte>, poff: nat,
                                   e: nat)
    requires Readable(q, qlen) && |now| == |q| && off <= poff < e < qlen && q[poff] != 0 && e == poff + 1 + q[poff]
    requires now[poff..] == q[poff..] && now' == now[poff := DOT]
    ensures now'[e..] == q[e..] && now'[..off] == now[..off]
    ensures NameEnd(q, qlen, poff).Some? ==> now[off..poff] + Masked(q, qlen, poff) == now'[off..e] + Masked(q, qlen, e)
  {
    DotBytes(q, now, now', off, poff, e);
    if NameEnd(q, qlen, poff).Some? {
      Regroup(now[off..poff], [DOT] + q[poff + 1..e], Masked(q, qlen, e));
    }
  }

  lemma {:induction false} Regroup(a: seq<Byte>, b: seq<Byte>, c: seq<Byte>)
    ensures a + (b + c) == (a + b) + c
  {
  }

  lemma {:induction false} DotBytes(q: seq<Byte>, now: seq<Byte>, now': seq<Byte>, off: nat, poff: nat, e: nat)
    requires |now| == |q| && off <= poff < e < |q| && now[poff..] == q[poff..] && now' == now[poff := DOT]
    ensures now'[e..] == q[e..] && now'[..off] == now[..off]
    ensures now'[off..e] == now[off..poff] + ([DOT] + q[poff + 1..e])
  {
    forall i | poff <= i < |q| ensures now[i] == q[i] {
      assert now[poff..][i - poff] == q[poff..][i - poff];
    }
  }

  /** The name handed to the cache after the dots are in place. */
  lemma {:induction false} NameAfterDots(q: seq<Byte>, qlen: nat, off: nat, rb: seq<Byte>)
    requires Readable(q, qlen) && off <= qlen && Complete(q, qlen, off)
    requires var e := NameEnd(q, qlen, off).value;
      IsInternetA(q, e + 1) && rb == q[..off] + Masked(q, qlen, off) + q[e..]
    ensures CString(rb[off + 1..]) == QuestionName(q, qlen, off)
  {
    var e, m, d := NameEnd(q, qlen, off).value, Masked(q, qlen, off), Dotted(Labels(q, qlen, off));
    MaskedIsDotted(q, qlen, off);
    EmptyName(q, qlen, off);
    HighOctetZero(q, e + 1);
    hide Masked, Labels, Dotted, NameEnd, CString, U16, IsInternetA;
    if q[off] == 0 {
      BehindEmpty(q, off, rb);
      CStringStops([], q[e + 2..]);
    } else {
      BehindDot(q, off, e, d, rb);
      CStringStops(d, q[e + 1..]);
    }
  }

  lemma {:induction false} EmptyName(q: seq<Byte>, qlen: nat, off: nat)
    requires Readable(q, qlen) && off <= qlen && NameEnd(q, qlen, off).Some?
    ensures q[NameEnd(q, qlen, off).value] == 0
    ensures q[off] == 0 ==> NameEnd(q, qlen, off).value == off && Dotted(Labels(q, qlen, off)) == []
  {
  }

  lemma {:induction false} HighOctetZero(q: seq<Byte>, i: nat)
    requires i + 3 < |q| && IsInternetA(q, i)
    ensures q[i] == 0
  {
  }

  lemma {:induction false} BehindEmpty(q: seq<Byte>, off: nat, rb: seq<Byte>)
    requires off + 1 < |q| && q[off + 1] == 0 && rb == q[..off] + [] + q[off..]
    ensures rb[off + 1..] == [] + [0] + q[off + 2..]
  {
  }

  lemma {:induction false} BehindDot(q: seq<Byte>, off: nat, e: nat, d: seq<Byte>, rb: seq<Byte>)
    requires off <= e < |q| && q[e] == 0 && rb == q[..off] + ([DOT] + d) + q[e..]
    ensures rb[off + 1..] == d + [0] + q[e + 1..]
  {
    assert q[e..] == [0] + q[e + 1..];
    assert rb == (q[..off] + [DOT]) + (d + [0] + q[e + 1..]);
  }

  /** Memory for new records: nulls where allocation fails, otherwise unused addresses. */
  ghost predicate Unused(spares: seq<Ptr>, order: seq<Ptr>) {
    && (forall i :: 0 <= i < |spares| ==> spares[i] !in order)
    && (forall i, j :: 0 <= i < j < |spares| && spares[i] != NULL ==> spares[i] != spares[j])
  }

  ghost function Alloc(spares: seq<Ptr>): seq<bool> {
    seq(|spares|, i requires 0 <= i < |spares| => spares[i] != NULL)
  }

  /** The offsets and indices noted for the answers. */
  ghost predicate Noted(net: Word, ipo: seq<nat>, ips: seq<nat>, answers: seq<Answer>) {
    && |ipo| == |ips| == |answers|
    && forall j {:trigger answers[j]} :: 0 <= j < |answers| ==>
         ipo[j] == answers[j].off && ips[j] == Mint(net, answers[j].idx)
  }

  /** The question at `off`, as the loop over the questions reads it. */
  method ParseQuestion(rb: array<Byte>, qlen: nat, off: nat) returns (ok: bool, off': nat, isA: bool, name: Name)
    requires Readable(rb[..], qlen) && off <= qlen
    modifies rb
    ensures ok == Complete(old(rb[..]), qlen, off)
    ensures ok ==>
      var x := QuestionAt(old(rb[..]), qlen, off);
      off' == NameEnd(old(rb[..]), qlen, off).value + 5 && isA == x.isA && (isA ==> name == x.name)
    ensures ok ==> off' <= qlen && rb[off'..] == old(rb[..])[off'..]
  {
    ghost var q := rb[..];
    var e;
    ok, e := DotName(rb, qlen, off);
    off', isA, name := off, false, [];
    if !ok {
      return;
    }
    off' := e + 1;
    if off' + 3 >= qlen {
      ok := false;
      return;
    }
    assert Complete(q, qlen, off) && off' + 4 == NameEnd(q, qlen, off).value + 5;
    hide Masked, NameEnd, Labels, Dotted, CString, Complete;
    TailKept(q[..off] + Masked(q, qlen, off), q, e, rb[..]);
    isA := U16(rb[..], off') == 1 && U16(rb[..], off' + 2) == 1;
    if isA {
      NameAfterDots(q, qlen, off, rb[..]);
      name := CString(rb[off + 1..]);
    }
    off' := off' + 4;
  }

  lemma {:induction false} TailKept(p: seq<Byte>, q: seq<Byte>, e: nat, rb: seq<Byte>)
    requires |p| == e <= |q| && rb == p + q[e..]
    ensures |rb| == |q| && forall k :: e <= k < |q| ==> rb[k] == q[k]
    ensures forall i {:trigger rb[i..]} :: e <= i <= |q| ==> rb[i..] == q[i..]
  {
  }

  /** The first `n` questions are read; the rest of the buffer is untouched. */
  ghost predicate Reading(q: seq<Byte>, now: seq<Byte>, qlen: nat, off: nat, n: nat, done: seq<Question>) {
    && Readable(q, qlen) && off <= qlen && |now| == |q| && now[off..] == q[off..]
    && Parse(q, qlen, n) == Parsed(true, off, done)
  }

  /** Reads the next question. */
  method NextQuestion(rb: array<Byte>, qlen: nat, off: nat, ghost q: seq<Byte>, ghost n: nat, ghost done: seq<Question>)
    returns (ok: bool, off': nat, isA: bool, name: Name, ghost x: Question)
    requires Reading(q, rb[..], qlen, off, n, done)
    modifies rb
    ensures !ok ==> Parse(q, qlen, n + 1) == Parsed(false, off, done)
    ensures ok ==> Reading(q, rb[..], qlen, off', n + 1, done + [x])
    ensures ok ==> x.off == off && x.isA == isA && (isA ==> x.name == name)
  {
    ghost var now := rb[..];
    SameQuestion(q, now, qlen, off);
    x := Question(0, false, []);
    ok, off', isA, name := ParseQuestion(rb, qlen, off);
    if ok {
      x := QuestionAt(now, qlen, off);
      SuffixOf(now, q, off, off');
    }
  }

  /** Serves one question from the cache. */
  method ServeQuestion(self: MappedDns, off: nat, isA: bool, name: Name, spare: Ptr, ipo: seq<nat>, ips: seq<nat>,
                       ghost sv: Served, ghost x: Question)
    returns (ipo': seq<nat>, ips': seq<nat>)
    requires self.Valid() && spare !in self.list.order
    requires self.Abs() == sv.cache && Noted(self.net, ipo, ips, sv.answers)
    requires x.off == off && x.isA == isA && (isA ==> x.name == name)
    modifies self`use, self`name, self`idx, self.list, self.tree, self.records
    ensures self.Valid()
    ensures forall p :: p in self.list.order ==> (p == spare && spare != NULL) || p in old(self.list.order)
    ensures var sv' := ServeOne(sv, self.max, x, spare != NULL);
      self.Abs() == sv'.cache && Noted(self.net, ipo', ips', sv'.answers) && |ipo'| <= |ipo| + 1
  {
    ipo', ips' := ipo, ips;
    if isA {
      var idx := self.Find(name, spare);
      if idx >= 0 {
        NoteOne(self.net, ipo, ips, sv.answers, Answer(off, idx, name));
        ipo', ips' := ipo + [off], ips + [Mint(self.net, idx)];
      }
    }
  }

  /** One round of the loop over the questions. */
  method Round(self: MappedDns, rb: array<Byte>, qlen: nat, off: nat, spare: Ptr, ipo: seq<nat>, ips: seq<nat>,
               ghost q: seq<Byte>, ghost n: nat, ghost done: seq<Question>, ghost sv: Served)
    returns (ok: bool, off': nat, ipo': seq<nat>, ips': seq<nat>, ghost x: Question)
    requires self.Valid() && spare !in self.list.order && rb as object != self.records as object
    requires Reading(q, rb[..], qlen, off, n, done)
    requires self.Abs() == sv.cache && Noted(self.net, ipo, ips, sv.answers)
    modifies self`use, self`name, self`idx, self.list, self.tree, self.records, rb
    ensures self.Valid()
    ensures forall p :: p in self.list.order ==> (p == spare && spare != NULL) || p in old(self.list.order)
    ensures !ok ==> Parse(q, qlen, n + 1) == Parsed(false, off, done) && self.Abs() == sv.cache
    ensures ok ==> Reading(q, rb[..], qlen, off', n + 1, done + [x])
    ensures ok ==>
      var sv' := ServeOne(sv, self.max, x, spare != NULL);
      self.Abs() == sv'.cache && Noted(self.net, ipo', ips', sv'.answers) && |ipo'| <= |ipo| + 1
  {
    var isA, name;
    ipo', ips' := ipo, ips;
    ok, off', isA, name, x := NextQuestion(rb, qlen, off, q, n, done);
    if ok {
      ghost var now := rb[..];
      ipo', ips' := ServeQuestion(self, off, isA, name, spare, ipo, ips, sv, x);
      assert rb[..] == now;
    }
  }

  method ReadQuestions(self: MappedDns, rb: array<Byte>, qlen: nat, qd: nat, spares: seq<Ptr>)
    returns (ok: bool, off: nat, ipo: seq<nat>, ips: seq<nat>)
    requires self.Valid() && Readable(rb[..], qlen) && qd == |spares| && Unused(spares, self.list.order)
    requires rb as object != self.records as object
    modifies self`use, self`name, self`idx, self.list, self.tree, self.records, rb
    ensures self.Valid()
    ensures var p := Parse(old(rb[..]), qlen, qd);
      var sv := Serve(old(self.Abs()), self.max, p.questions, Alloc(spares));
      && ok == p.ok && self.Abs() == sv.cache
      && (ok ==> off == p.off && Noted(self.net, ipo, ips, sv.answers) && |ipo| <= qd)
  {
    ghost var q, s := rb[..], self.Abs();
    assert self.max >= 1;
    hide self.Valid;
    ghost var done: seq<Question> := [];
    ghost var sv := Served([], s);
    off, ipo, ips := HEADER, [], [];
    var i := 0;
    while i < qd
      invariant 0 <= i <= qd && |done| == i && |ipo| <= i && self.Valid()
      invariant forall j :: i <= j < qd ==> spares[j] !in self.list.order
      invariant Reading(q, rb[..], qlen, off, i, done)
      invariant sv == Serve(s, self.max, done, Alloc(spares)) && self.Abs() == sv.cache
      invariant Noted(self.net, ipo, ips, sv.answers)
    {
      ghost var x;
      ok, off, ipo, ips, x := Round(self, rb, qlen, off, spares[i], ipo, ips, q, i, done, sv);
      if !ok {
        ParseStuck(q, qlen, i + 1, qd);
        return;
      }
      ServeSnoc(s, self.max, done, x, Alloc(spares));
      sv, done := ServeOne(sv, self.max, x, spares[i] != NULL), done + [x];
      i := i + 1;
    }
    ok := true;
  }

  lemma {:induction false} SuffixOf(a: seq<Byte>, b: seq<Byte>, i: nat, j: nat)
    requires |a| == |b| && i <= j <= |a| && a[i..] == b[i..]
    ensures a[j..] == b[j..]
  {
    assert a[j..] == a[i..][j - i..] && b[j..] == b[i..][j - i..];
  }

  lemma {:induction false} NoteOne(net: Word, ipo: seq<nat>, ips: seq<nat>, answers: seq<Answer>, a: Answer)
    requires Noted(net, ipo, ips, answers)
    ensures Noted(net, ipo + [a.off], ips + [Mint(net, a.idx)], answers + [a])
  {
  }

  /** Only the bytes from `off` on matter for the question at `off`. */
  lemma {:induction false} SameQuestion(q: seq<Byte>, now: seq<Byte>, qlen: nat, off: nat)
    requires Readable(q, qlen) && |now| == |q| && off <= qlen && now[off..] == q[off..]
    ensures NameEnd(now, qlen, off) == NameEnd(q, qlen, off)
    ensures Complete(q, qlen, off) ==> QuestionAt(now, qlen, off) == QuestionAt(q, qlen, off)
  {
    forall k | off <= k < |q| ensures now[k] == q[k] {
      assert now[off..][k - off] == q[off..][k - off];
    }
    SameLabels(q, now, qlen, off);
  }

  lemma {:induction false} SameLabels(q: seq<Byte>, now: seq<Byte>, qlen: nat, off: nat)
    requires Readable(q, qlen) && |now| == |q| && off <= qlen
    requires forall k {:trigger now[k]} :: off <= k < |q| ==> now[k] == q[k]
    ensures NameEnd(now, qlen, off) == NameEnd(q, qlen, off)
    ensures NameEnd(q, qlen, off).Some? ==> Labels(now, qlen, off) == Labels(q, qlen, off)
    decreases qlen - off
  {
    if q[off] != 0 && off + 1 + q[off] < qlen {
      SameLabels(q, now, qlen, off + 1 + q[off]);
      assert now[off + 1..off + 1 + q[off]] == q[off + 1..off + 1 + q[off]];
    }
  }

  // ---------- the reply ----------

  /** Writes `bytes` at `off`. */
  method Put(sb: array<Byte>, off: nat, bytes: seq<Byte>)
    requires off + |bytes| <= sb.Length
    modifies sb
    ensures forall k :: 0 <= k < sb.Length ==> sb[k] == if off <= k < off + |bytes| then bytes[k - off] else old(sb[k])
  {
    for i := 0 to |bytes|
      invariant forall k :: 0 <= k < sb.Length ==> sb[k] == if off <= k < off + i then bytes[k - off] else old(sb[k])
    {
      sb[off + i] := bytes[i];
    }
  }

  /** Appends the answer records; fails when the next one would not fit. */
  method WriteAnswers(sb: array<Byte>, slen: nat, off0: nat, ipo: seq<nat>, ips: seq<nat>, ghost net: Word,
                      ghost answers: seq<Answer>)
    returns (ok: bool, off: nat)
    requires off0 <= slen <= sb.Length && Noted(net, ipo, ips, answers)
    modifies sb
    ensures ok <==> off0 + 16 * |answers| <= slen
    ensures ok ==> off == off0 + 16 * |answers| && sb[..off] == old(sb[..off0]) + Records(net, answers)
  {
    off := off0;
    ghost var before := sb[..off0];
    assert answers[..0] == [];
    for i := 0 to |ipo|
      invariant off == off0 + 16 * i <= slen
      invariant sb[..off] == before + Records(net, answers[..i])
    {
      if off + 15 >= slen {
        return false, off;
      }
      ghost var now := sb[..];
      var bytes := [0xC0, ipo[i] % 256] + Bytes16(1) + Bytes16(1) + Bytes32(1) + Bytes16(4) + Bytes32(ips[i]);
      assert bytes == Record(net, answers[i]);
      hide Record;
      Put(sb, off, bytes);
      RecordsSnoc(net, answers, i);
      PutBehind(now, sb[..], off, bytes, before, Records(net, answers[..i]));
      off := off + 16;
    }
    assert answers[..|answers|] == answers;
    ok := true;
  }

  lemma {:induction false} RecordsSnoc(net: Word, answers: seq<Answer>, i: nat)
    requires i < |answers|
    ensures Records(net, answers[..i + 1]) == Records(net, answers[..i]) + Record(net, answers[i])
  {
    assert answers[..i + 1][..i] == answers[..i];
  }

  lemma {:induction false} PutBehind(now: seq<Byte>, now': seq<Byte>, off: nat, bytes: seq<Byte>, a: seq<Byte>,
                                     b: seq<Byte>)
    requires |now| == |now'| && off + |bytes| <= |now| && now[..off] == a + b
    requires forall k :: 0 <= k < |now| ==> now'[k] == if off <= k < off + |bytes| then bytes[k - off] else now[k]
    ensures now'[..off + |bytes|] == a + (b + bytes)
  {
    assert now'[..off + |bytes|] == now[..off] + bytes;
  }

  /** Sets the flags and the answer count of the reply; the other counts are zero already. */
  method WriteHeader(sb: array<Byte>, off: nat, count: nat, ghost q: seq<Byte>, ghost body: seq<Byte>)
    requires HEADER <= off <= sb.Length && |q| >= HEADER
    requires sb[..off] == BlankHeader(q) + body
    modifies sb
    ensures sb[..off] == ReplyHeader(q, count) + body
  {
    ghost var now := sb[..];
    assert forall k :: 0 <= k < off ==> now[k] == (BlankHeader(q) + body)[k] by {
      assert forall k :: 0 <= k < off ==> now[k] == now[..off][k];
    }
    var fl := U16(sb[..], 2);
    assert fl == U16(q, 2);
    hide ReplyFlags;
    Put(sb, 2, Bytes16(ReplyFlags(fl)));
    Put(sb, 6, Bytes16(count));
  }

  /** The copied query with its answer, authority and additional counts cleared. */
  method BeginReply(req: array<Byte>, qlen: nat, res: array<Byte>)
    requires HEADER <= qlen <= req.Length && qlen <= res.Length && req != res
    modifies res
    ensures res[..qlen] == BlankHeader(req[..]) + req[HEADER..qlen]
  {
    Put(res, 0, req[..qlen]);
    Put(res, 6, [0, 0, 0, 0, 0, 0]);
  }

  /** Header and questions of the reply are those of the query. */
  lemma {:induction false} BeginPrefix(q: seq<Byte>, res: seq<Byte>, qlen: nat, off: nat)
    requires HEADER <= off <= qlen <= |q| && qlen <= |res|
    requires res[..qlen] == BlankHeader(q) + q[HEADER..qlen]
    ensures res[..off] == BlankHeader(q) + q[HEADER..off]
  {
    assert res[..off] == res[..qlen][..off];
  }

  /** `hev_mapped_dns_handle`: `spares` is the memory for new records. Returns the length
      of the reply, or -1. */
  method Handle(self: MappedDns, req: array<Byte>, qlen: nat, res: array<Byte>, slen: nat, spares: seq<Ptr>)
    returns (r: int)
    requires self.Valid() && Readable(req[..], qlen) && slen <= res.Length
    requires req != res && req as object != self.records as object && res as object != self.records as object
    requires |spares| == 32 && Unused(spares, self.list.order)
    modifies self`use, self`name, self`idx, self.list, self.tree, self.records, req, res
    ensures self.Valid()
    ensures var q, s := old(req[..]), old(self.Abs());
      var qd := U16(q, 4);
      if slen < qlen || qd > 32 then r == -1 && self.Abs() == s
      else
        var p := Parse(q, qlen, qd);
        var sv := Serve(s, self.max, p.questions, Alloc(spares[..qd]));
        && self.Abs() == sv.cache
        && if !p.ok || p.off + 16 * |sv.answers| > slen then r == -1
           else r == p.off + 16 * |sv.answers| && res[..r] == Reply(q, p.off, self.net, sv.answers)
  {
    ghost var q, s := req[..], self.Abs();
    assert self.max >= 1;
    hide self.Valid;
    if slen < qlen {
      return -1;
    }
    BeginReply(req, qlen, res);
    ghost var begun := res[..];
    var qd := U16(req[..], 4);
    if qd > 32 {
      return -1;
    }
    assert Unused(spares[..qd], self.list.order);
    ghost var p := Parse(q, qlen, qd);
    ghost var sv := Serve(s, self.max, p.questions, Alloc(spares[..qd]));
    var ok, off, ipo, ips := ReadQuestions(self, req, qlen, qd, spares[..qd]);
    if !ok {
      return -1;
    }
    assert res[..] == begun;
    BeginPrefix(q, begun, qlen, off);
    ok, off := WriteAnswers(res, slen, off, ipo, ips, self.net, sv.answers);
    if !ok {
      return -1;
    }
    ghost var body := q[HEADER..p.off] + Records(self.net, sv.answers);
    Regroup(BlankHeader(q), q[HEADER..p.off], Records(self.net, sv.answers));
    WriteHeader(res, off, |ipo|, q, body);
    Regroup(ReplyHeader(q, |ipo|), q[HEADER..p.off], Records(self.net, sv.answers));
    r := off;
  }

  /** The same for a query that is shorter than the header, whose missing bytes are whatever
      stands behind it: it is refused, unless those bytes say that there is no question. */
  method HandleShort(req: array<Byte>, qlen: nat, res: array<Byte>, slen: nat) returns (r: int)
    requires qlen < HEADER < req.Length && HEADER <= res.Length && slen <= res.Length && req != res
    modifies res
    ensures if slen < qlen || U16(req[..], 4) != 0 then r == -1
            else r == HEADER && res[..HEADER] == ReplyHeader(req[..qlen] + old(res[qlen..HEADER]), 0)
  {
    hide ReplyFlags, ReplyHeader;
    if slen < qlen {
      return -1;
    }
    ghost var h := req[..qlen] + res[qlen..HEADER];
    Put(res, 0, req[..qlen]);
    Put(res, 6, [0, 0, 0, 0, 0, 0]);
    assert res[..HEADER] == BlankHeader(h) + [];
    var qd := U16(req[..], 4);
    if qd > 32 {
      return -1;
    }
    if qd > 0 {
      var off := HEADER;
      if req[off] != 0 {
        off := off + 1 + req[off];
        assert off >= qlen;
        return -1;
      }
      off := off + 1;
      assert off + 3 >= qlen;
      return -1;
    }
    WriteHeader(res, HEADER, 0, h, []);
    assert ReplyHeader(h, 0) + [] == ReplyHeader(h, 0);
    r := HEADER;
  }
}
