/** The reply read back by sections 4.1.1 to 4.1.4 of RFC 1035. The names of the questions are
    read like the query's, by lengths alone; `RecordName` ties that to the reading of section
    4.1.4, where a length is at most 63 and larger octets are pointers. */
module DnsReply {
  import opened Basics
  import opened KeyOrder
  import opened Address
  import opened DnsMessage
  import opened DnsTheorems
  import Lru

  datatype Header = Header(id: nat, flags: nat, qd: nat, an: nat, ns: nat, ar: nat)

  function ReadHeader(m: seq<Byte>): Header
    requires |m| >= HEADER
  {
    Header(U16(m, 0), U16(m, 2), U16(m, 4), U16(m, 6), U16(m, 8), U16(m, 10))
  }

  function U32(s: seq<Byte>, i: nat): nat
    requires i + 3 < |s|
  {
    U16(s, i) * 0x1_0000 + U16(s, i + 2)
  }

  /** A resource record whose name is a compression pointer. */
  datatype Resource = Resource(pointer: nat, rtype: nat, class_: nat, ttl: nat, rdata: seq<Byte>)

  function ReadResource(m: seq<Byte>, off: nat): Option<Resource> {
    if off + 12 > |m| || m[off] < 0xC0 then None
    else
      var len := U16(m, off + 10);
      if off + 12 + len > |m| then None
      else Some(Resource(U16(m, off) - 0xC000, U16(m, off + 2), U16(m, off + 4), U32(m, off + 6),
        m[off + 12..off + 12 + len]))
  }

  // ---------- flag bits ----------

  /** Bit `k` of `a`. */
  function Bit(a: nat, k: nat): nat
    decreases k
  {
    if k == 0 then a % 2 else Bit(a / 2, k - 1)
  }

  lemma {:induction false} BitZero(k: nat)
    ensures Bit(0, k) == 0
  {
    if k > 0 { BitZero(k - 1); }
  }

  lemma {:induction false} BitOr(a: nat, b: nat, k: nat)
    ensures Bit(Or(a, b), k) == (if Bit(a, k) == 1 || Bit(b, k) == 1 then 1 else 0)
    ensures Bit(a, k) <= 1
    decreases k
  {
    OrHalf(a, b);
    if k > 0 { BitOr(a / 2, b / 2, k - 1); }
  }

  lemma {:induction false} BitAnd(a: nat, b: nat, k: nat)
    ensures Bit(And(a, b), k) == (if Bit(a, k) == 1 && Bit(b, k) == 1 then 1 else 0)
    decreases k
  {
    AndHalf(a, b);
    if k > 0 { BitAnd(a / 2, b / 2, k - 1); }
  }

  lemma {:induction false} BitPower(n: nat, k: nat)
    ensures Bit(Pow2(n), k) == if k == n then 1 else 0
    decreases k
  {
    if n == 0 {
      if k > 0 { BitZero(k - 1); }
    } else if k > 0 {
      BitPower(n - 1, k - 1);
    }
  }

  /** The reply sets QR (bit 15) and, when recursion is desired (RD, bit 8), RA (bit 7);
      all other flags are those of the query. */
  lemma {:induction false} FlagBits(fl: nat, k: nat)
    ensures Bit(ReplyFlags(fl), k) ==
      if k == 15 then 1
      else if k == 7 && Bit(fl, 8) == 1 then 1
      else Bit(fl, k)
  {
    var rd := And(fl, 0x100) / 2;
    assert Pow2(8) == 0x100 && Pow2(15) == 0x8000 by {
      assert Pow2(4) == 16;
      assert Pow2(8) == 16 * Pow2(4);
      assert Pow2(12) == 16 * Pow2(8);
      assert Pow2(15) == 8 * Pow2(12);
    }
    BitOr(Or(fl, 0x8000), rd, k);
    BitOr(fl, 0x8000, k);
    BitPower(15, k);
    assert Bit(rd, k) == Bit(And(fl, 0x100), k + 1);
    BitAnd(fl, 0x100, k + 1);
    BitPower(8, k + 1);
  }

  lemma {:induction false} FlagRange(fl: nat)
    requires fl < 0x1_0000
    ensures ReplyFlags(fl) < 0x1_0000
  {
    assert Pow2(16) == 0x1_0000 by {
      assert Pow2(4) == 16;
      assert Pow2(8) == 16 * Pow2(4);
      assert Pow2(12) == 16 * Pow2(8);
      assert Pow2(16) == 16 * Pow2(12);
    }
    AndBound(fl, 0x100);
    OrBound(fl, 0x8000, 16, 0x1_0000);
    OrBound(Or(fl, 0x8000), And(fl, 0x100) / 2, 16, 0x1_0000);
  }

  // ---------- the reply ----------

  lemma {:induction false} Bytes16Read(v: nat)
    requires v < 0x1_0000
    ensures U16(Bytes16(v), 0) == v
  {
  }

  /** The header: same id and question count, flags as above, one answer per mapped
      question and no other sections. */
  lemma {:induction false} ReplyHeaderReads(q: seq<Byte>, off: nat, net: Word, answers: seq<Answer>)
    requires HEADER <= off <= |q| && |answers| < 0x1_0000
    ensures var m, h := Reply(q, off, net, answers), ReadHeader(q);
      |m| == off + 16 * |answers| &&
      ReadHeader(m) == Header(h.id, ReplyFlags(h.flags), h.qd, |answers|, 0, 0)
  {
    var m, fl := Reply(q, off, net, answers), U16(q, 2);
    FlagRange(fl);
    Bytes16Read(ReplyFlags(fl));
    Bytes16Read(|answers|);
    var r := ReplyHeader(q, |answers|);
    assert forall i :: 0 <= i < HEADER ==> m[i] == r[i];
    assert r[0] == q[0] && r[1] == q[1] && r[4] == q[4] && r[5] == q[5];
    assert r[2] == Bytes16(ReplyFlags(fl))[0] && r[3] == Bytes16(ReplyFlags(fl))[1];
    assert r[6] == Bytes16(|answers|)[0] && r[7] == Bytes16(|answers|)[1];
  }

  /** The questions are copied byte for byte. */
  lemma {:induction false} ReplyQuestions(q: seq<Byte>, off: nat, net: Word, answers: seq<Answer>)
    requires HEADER <= off <= |q|
    ensures off <= |Reply(q, off, net, answers)| && Reply(q, off, net, answers)[HEADER..off] == q[HEADER..off]
  {
  }

  lemma {:induction false} RecordsAt(net: Word, answers: seq<Answer>, i: nat)
    requires i < |answers|
    ensures Records(net, answers)[16 * i..16 * (i + 1)] == Record(net, answers[i])
  {
    var n := |answers| - 1;
    var p := answers[..n];
    RecordsLast(net, answers);
    if i < n {
      RecordsAt(net, p, i);
      assert p[i] == answers[i];
      SliceBefore(Records(net, p), Record(net, answers[n]), 16 * i, 16 * (i + 1));
    } else {
      SliceBehind(Records(net, p), Record(net, answers[n]));
    }
  }

  lemma {:induction false} RecordsLast(net: Word, answers: seq<Answer>)
    requires answers != []
    ensures var n := |answers| - 1;
      |Records(net, answers[..n])| == 16 * n && Records(net, answers) ==
      Records(net, answers[..n]) + Record(net, answers[n])
  {
  }

  lemma {:induction false} SliceBefore(a: seq<Byte>, b: seq<Byte>, i: nat, j: nat)
    requires i <= j <= |a|
    ensures (a + b)[i..j] == a[i..j]
  {
  }

  lemma {:induction false} SliceBehind(a: seq<Byte>, b: seq<Byte>)
    ensures (a + b)[|a|..|a| + |b|] == b
  {
  }

  /** The fields of one record. */
  lemma {:induction false} RecordFields(net: Word, a: Answer)
    ensures var r := Record(net, a);
      && r[0] == 0xC0 && r[1] == a.off % 256
      && U16(r, 2) == 1 && U16(r, 4) == 1 && U32(r, 6) == 1 && U16(r, 10) == 4
      && r[12..16] == Bytes32(Mint(net, a.idx))
  {
  }

  /** Each answer is an A record of class IN that carries the minted address; its pointer
      is the low octet of the question's offset. */
  lemma {:induction false} ReplyAnswers(q: seq<Byte>, off: nat, net: Word, answers: seq<Answer>, i: nat)
    requires HEADER <= off <= |q| && i < |answers|
    ensures ReadResource(Reply(q, off, net, answers), off + 16 * i) ==
      Some(Resource(answers[i].off % 256, 1, 1, 1, Bytes32(Mint(net, answers[i].idx))))
  {
    var m, r, o := Reply(q, off, net, answers), Record(net, answers[i]), off + 16 * i;
    ReplyRecord(q, off, net, answers, i);
    RecordFields(net, answers[i]);
    hide Reply, Record;
    ResourceAt(m, o, r);
  }

  /** A record is read by its own bytes. */
  lemma {:induction false} ResourceAt(m: seq<Byte>, o: nat, r: seq<Byte>)
    requires o + 16 <= |m| && m[o..o + 16] == r && r[0] == 0xC0 && U16(r, 10) == 4
    ensures ReadResource(m, o) == Some(Resource(r[1], U16(r, 2), U16(r, 4), U32(r, 6), r[12..16]))
  {
    assert forall i :: o <= i < o + 16 ==> m[i] == r[i - o];
    assert m[o + 12..o + 16] == r[12..16];
  }

  lemma {:induction false} ReplyRecord(q: seq<Byte>, off: nat, net: Word, answers: seq<Answer>, i: nat)
    requires HEADER <= off <= |q| && i < |answers|
    ensures var m, o := Reply(q, off, net, answers), off + 16 * i;
      o + 16 <= |m| && m[o..o + 16] == Record(net, answers[i])
  {
    var h, rs := ReplyHeader(q, |answers|) + q[HEADER..off], Records(net, answers);
    RecordsAt(net, answers, i);
    assert |h| == off;
    assert (h + rs)[off + 16 * i..off + 16 * i + 16] == rs[16 * i..16 * (i + 1)];
  }

  /** The address in the record reads back as the minted one. */
  lemma {:induction false} Bytes32Read(v: nat)
    requires v < 0x1_0000_0000
    ensures U32(Bytes32(v), 0) == v
  {
    var a, b, c, d := v / 0x100_0000, v / 0x1_0000 % 256, v / 0x100 % 256, v % 256;
    assert v / 0x100 == v / 0x1_0000 * 256 + c;
    assert v / 0x1_0000 == a * 256 + b;
    assert a < 256;
  }

  lemma {:induction false} SameNameInRange(q: seq<Byte>, m: seq<Byte>, qlen: nat, mlen: nat, off: nat)
    requires Readable(q, qlen) && Readable(m, mlen) && off <= qlen && NameEnd(q, qlen, off).Some?
    requires NameEnd(q, qlen, off).value < mlen
    requires forall k {:trigger m[k]} :: off <= k <= NameEnd(q, qlen, off).value ==> k < |m| && m[k] == q[k]
    ensures NameEnd(m, mlen, off) == NameEnd(q, qlen, off)
    ensures Labels(m, mlen, off) == Labels(q, qlen, off)
    decreases qlen - off
  {
    if q[off] != 0 {
      var next := off + 1 + q[off];
      assert m[off] == q[off];
      SameNameInRange(q, m, qlen, mlen, next);
      assert m[off + 1..next] == q[off + 1..next];
    } else {
      assert m[off] == q[off];
    }
  }

  /** A pointer that reaches its question (offset at most 255) leads to that question's
      labels; a larger offset is cut and the pointer misses it. */
  lemma {:induction false} PointerReaches(q: seq<Byte>, qlen: nat, off: nat, net: Word, answers: seq<Answer>, i: nat)
    requires Readable(q, qlen) && HEADER <= off <= qlen && i < |answers|
    requires HEADER <= answers[i].off && answers[i].off <= qlen && NameEnd(q, qlen, answers[i].off).Some?
    requires NameEnd(q, qlen, answers[i].off).value < off
    ensures var m := Reply(q, off, net, answers);
      var o := answers[i].off;
      && ReadResource(m, off + 16 * i).Some?
      && (ReadResource(m, off + 16 * i).value.pointer == o <==> o <= 255)
      && NameEnd(m, |m| - 1, o).Some? && Labels(m, |m| - 1, o) == Labels(q, qlen, o)
  {
    var m, o := Reply(q, off, net, answers), answers[i].off;
    ReplyAnswers(q, off, net, answers, i);
    ReplyQuestions(q, off, net, answers);
    assert |m| == off + 16 * |answers|;
    hide Reply, ReadResource;
    CopiedName(q, qlen, off, m, o);
  }

  /** A name by section 4.1.4: labels of at most 63 octets, and pointers, of which at most
      `hops` are followed. */
  function ReadName(m: seq<Byte>, off: nat, hops: nat): Option<seq<Name>>
    decreases hops, |m| - off
  {
    if off >= |m| then None
    else if m[off] == 0 then Some([])
    else if m[off] < 64 then
      var next := off + 1 + m[off];
      if next > |m| then None
      else
        var rest := ReadName(m, next, hops);
        if rest.None? then None else Some([m[off + 1..next]] + rest.value)
    else if m[off] < 0xC0 || off + 1 >= |m| || hops == 0 then None
    else ReadName(m, U16(m, off) - 0xC000, hops - 1)
  }

  lemma {:induction false} ReadLabels(m: seq<Byte>, off: nat, hops: nat)
    requires |m| > HEADER && off < |m| && NameEnd(m, |m| - 1, off).Some?
    requires forall l :: l in Labels(m, |m| - 1, off) ==> |l| <= 63
    ensures ReadName(m, off, hops) == Some(Labels(m, |m| - 1, off))
    decreases |m| - off
  {
    if m[off] != 0 {
      var next := off + 1 + m[off];
      var l, rest := m[off + 1..next], Labels(m, |m| - 1, next);
      assert Labels(m, |m| - 1, off) == [l] + rest;
      assert l in Labels(m, |m| - 1, off) && forall x :: x in rest ==> x in Labels(m, |m| - 1, off);
      assert |l| == m[off] < 64;
      ReadLabels(m, next, hops);
    }
  }

  /** For such names and an offset of at most 255, a record's name is its question's. */
  lemma {:induction false} RecordName(q: seq<Byte>, qlen: nat, off: nat, net: Word, answers: seq<Answer>, i: nat)
    requires Readable(q, qlen) && HEADER <= off <= qlen && i < |answers|
    requires HEADER <= answers[i].off <= 255 && answers[i].off <= qlen && NameEnd(q, qlen, answers[i].off).Some?
    requires NameEnd(q, qlen, answers[i].off).value < off
    requires forall l :: l in Labels(q, qlen, answers[i].off) ==> |l| <= 63
    ensures ReadName(Reply(q, off, net, answers), off + 16 * i, 1) == Some(Labels(q, qlen, answers[i].off))
  {
    var m, o := Reply(q, off, net, answers), answers[i].off;
    assert |m| == off + 16 * |answers|;
    PointerReaches(q, qlen, off, net, answers, i);
    hide Reply, Labels, NameEnd;
    ReadLabels(m, o, 0);
  }

  lemma {:induction false} SamePart(q: seq<Byte>, m: seq<Byte>, i: nat, j: nat)
    requires i <= j <= |q| && j <= |m| && m[i..j] == q[i..j]
    ensures forall k {:trigger m[k]} :: i <= k < j ==> m[k] == q[k]
  {
    assert forall k :: i <= k < j ==> m[k] == m[i..j][k - i] && q[k] == q[i..j][k - i];
  }

  /** The names of the questions are still there. */
  lemma {:induction false} CopiedName(q: seq<Byte>, qlen: nat, off: nat, m: seq<Byte>, o: nat)
    requires Readable(q, qlen) && HEADER <= off <= qlen && off < |m| && m[HEADER..off] == q[HEADER..off]
    requires HEADER <= o <= qlen && NameEnd(q, qlen, o).Some? && NameEnd(q, qlen, o).value < off
    ensures NameEnd(m, |m| - 1, o).Some? && Labels(m, |m| - 1, o) == Labels(q, qlen, o)
  {
    SamePart(q, m, HEADER, off);
    SameNameInRange(q, m, qlen, |m| - 1, o);
  }

  /** The record at `at` answers question `x` of the query: an A record of class IN whose
      address resolves to the name asked for, and whose pointer leads to that name if and
      only if its offset fits into one octet. */
  predicate AnswersQuestion(m: seq<Byte>, at: nat, q: seq<Byte>, qlen: nat, x: Question, s: Lru.Cache, mask: Word)
    requires Readable(q, qlen) && x.off <= qlen && NameEnd(q, qlen, x.off).Some?
  {
    var r, labels := ReadResource(m, at), Labels(q, qlen, x.off);
    && r.Some? && r.value.rtype == 1 && r.value.class_ == 1 && |r.value.rdata| == 4
    && Lru.LookupName(s, HostIndex(mask, U32(r.value.rdata, 0))) == Some(CString(Dotted(labels)))
    && (r.value.pointer == x.off <==> x.off <= 255)
    && x.off + 1 < |m| && Readable(m, |m| - 1)
    && NameEnd(m, |m| - 1, x.off).Some? && Labels(m, |m| - 1, x.off) == labels
  }

  lemma {:induction false} RecordAnswers(q: seq<Byte>, qlen: nat, off: nat, net: Word, mask: Word,
                                         answers: seq<Answer>, i: nat, x: Question, s: Lru.Cache)
    requires Readable(q, qlen) && HEADER <= off <= qlen && i < |answers| && WithinRead(q, qlen, off, x)
    requires answers[i].off == x.off && answers[i].name == x.name
    requires Mint(net, answers[i].idx) < 0x1_0000_0000 && Resolves(s, net, mask, answers[i])
    ensures AnswersQuestion(Reply(q, off, net, answers), off + 16 * i, q, qlen, x, s, mask)
  {
    hide NameEnd, Labels, ReadResource, AnswersQuestion, Records, ReplyHeader;
    var m, v := Reply(q, off, net, answers), Mint(net, answers[i].idx);
    assert |m| == off + 16 * |answers|;
    ReplyAnswers(q, off, net, answers, i);
    PointerReaches(q, qlen, off, net, answers, i);
    Bytes32Read(v);
    ByFields(m, off + 16 * i, q, qlen, x, s, mask, v);
  }

  lemma {:induction false} ByFields(m: seq<Byte>, at: nat, q: seq<Byte>, qlen: nat, x: Question, s: Lru.Cache,
                                    mask: Word, v: nat)
    requires Readable(q, qlen) && x.off <= qlen && Complete(q, qlen, x.off) && x == QuestionAt(q, qlen, x.off)
    requires x.off + 1 < |m| && Readable(m, |m| - 1)
    requires ReadResource(m, at) == Some(Resource(x.off % 256, 1, 1, 1, Bytes32(v)))
    requires U32(Bytes32(v), 0) == v && Lru.LookupName(s, HostIndex(mask, v)) == Some(x.name)
    requires NameEnd(m, |m| - 1, x.off).Some? && Labels(m, |m| - 1, x.off) == Labels(q, qlen, x.off)
    ensures AnswersQuestion(m, at, q, qlen, x, s, mask)
  {
    hide ReadResource, Labels, NameEnd, Dotted, CString, U32, Lru.LookupName, HostIndex, IsInternetA;
  }

  /** What a reply means, read byte by byte: its i-th record answers the i-th address
      question. */
  lemma {:induction false} ReplyResolves(q: seq<Byte>, qlen: nat, qd: nat, s: Lru.Cache, max: nat, net: Word,
                                         mask: Word, alloc: seq<bool>, i: nat)
    requires Readable(q, qlen) && max >= 1 && Lru.WellFormed(s, max) && |alloc| >= qd
    requires forall j :: 0 <= j < qd ==> alloc[j]
    requires Accepts(mask, max) && forall j: nat :: j < max ==> Survives(net, mask, j)
    requires |Lru.NameSet(AskedNames(Parse(q, qlen, qd).questions))| <= max
    requires i < |AddressQuestions(Parse(q, qlen, qd).questions)|
    ensures var p := Parse(q, qlen, qd);
      var sv := Serve(s, max, p.questions, alloc);
      var x := AddressQuestions(p.questions)[i];
      && WithinRead(q, qlen, p.off, x)
      && AnswersQuestion(Reply(q, p.off, net, sv.answers), p.off + 16 * i, q, qlen, x, sv.cache, mask)
  {
    hide Parse, WithinRead, AnswersQuestion, Serve, Reply, AskedNames, AddressQuestions, Lru.NameSet, Lru.WellFormed,
         Survives;
    var p := Parse(q, qlen, qd);
    AllWithin(q, qlen, qd);
    ServedReply(q, qlen, p.off, p.questions, s, max, net, mask, alloc, i);
  }

  lemma {:induction false} AllWithin(q: seq<Byte>, qlen: nat, n: nat)
    requires Readable(q, qlen)
    ensures var p := Parse(q, qlen, n); forall j :: 0 <= j < |p.questions| ==>
      WithinRead(q, qlen, p.off, p.questions[j])
  {
    hide Parse, WithinRead;
    var p := Parse(q, qlen, n);
    forall j | 0 <= j < |p.questions| ensures WithinRead(q, qlen, p.off, p.questions[j]) {
      ParsedWithin(q, qlen, n, j);
    }
  }

  lemma {:induction false} ServedReply(q: seq<Byte>, qlen: nat, off: nat, xs: seq<Question>, s: Lru.Cache, max: nat,
                                       net: Word, mask: Word, alloc: seq<bool>, i: nat)
    requires Readable(q, qlen) && max >= 1 && Lru.WellFormed(s, max) && |alloc| >= |xs| && HEADER <= off <= qlen
    requires forall j :: 0 <= j < |xs| ==> alloc[j]
    requires Accepts(mask, max) && forall j: nat :: j < max ==> Survives(net, mask, j)
    requires forall j :: 0 <= j < |xs| ==> WithinRead(q, qlen, off, xs[j])
    requires |Lru.NameSet(AskedNames(xs))| <= max && i < |AddressQuestions(xs)|
    ensures var sv, x := Serve(s, max, xs, alloc), AddressQuestions(xs)[i];
      && WithinRead(q, qlen, off, x)
      && AnswersQuestion(Reply(q, off, net, sv.answers), off + 16 * i, q, qlen, x, sv.cache, mask)
  {
    var sv, x := Serve(s, max, xs, alloc), AddressQuestions(xs)[i];
    AddressQuestionsIn(xs);
    assert x in xs;
    OneAnswerEach(s, max, xs, alloc);
    EndToEnd(s, max, net, mask, xs, alloc, [], i);
    MintWord(net, mask, max, sv.answers[i].idx);
    assert Lru.Run(sv.cache, max, []) == sv.cache;
    hide Serve, AddressQuestions, AnswersQuestion, WithinRead, Reply, Resolves, Mint, Lru.Run;
    RecordAnswers(q, qlen, off, net, mask, sv.answers, i, x, sv.cache);
  }

  // ---------- a pointer that misses ----------

  /** A label of `n` letters. */
  function Label(n: Byte): seq<Byte> {
    [n] + seq(n as int, _ => 0x61)
  }

  /** A query for the addresses of two names, of which the first is 253 bytes long. */
  function LongQuery(): seq<Byte> {
    [0, 0, 1, 0, 0, 2, 0, 0, 0, 0, 0, 0] + Label(63) + Label(63) + Label(63) + Label(59) + [0, 0, 1, 0, 1] +
    [1, 0x62, 0, 0, 1, 0, 1] + [0]
  }

  lemma {:induction false} LongNames()
    ensures var q := LongQuery();
      && |q| == 277 && q[12] == 63 && q[76] == 63 && q[140] == 63 && q[204] == 59 && q[264] == 0
      && IsInternetA(q, 265) && q[269] == 1 && q[271] == 0 && IsInternetA(q, 272)
  {
  }

  /** Its second question starts at offset 269, but the answer's pointer says 13. */
  lemma {:induction false} PointerMisses(net: Word, idx: nat)
    ensures var q := LongQuery();
      var p := Parse(q, 276, 2);
      && p.ok && p.questions[1].off == 269 && p.questions[1].isA
      && ReadResource(Reply(q, p.off, net, [Answer(269, idx, p.questions[1].name)]), p.off).Some?
      && ReadResource(Reply(q, p.off, net, [Answer(269, idx, p.questions[1].name)]), p.off).value.pointer == 13
  {
    var q := LongQuery();
    LongNames();
    hide LongQuery, IsInternetA, Reply;
    assert NameEnd(q, 276, 264) == Some(264);
    assert NameEnd(q, 276, 140) == NameEnd(q, 276, 204) == Some(264);
    assert NameEnd(q, 276, 12) == NameEnd(q, 276, 76) == Some(264);
    assert NameEnd(q, 276, 269) == Some(271);
    assert Parse(q, 276, 1).off == 269;
    var p := Parse(q, 276, 2);
    ReplyAnswers(q, p.off, net, [Answer(269, idx, p.questions[1].name)], 0);
  }
}
