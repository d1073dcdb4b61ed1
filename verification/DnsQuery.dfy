/** Queries as the bytes that clients send: which of their questions are answered, and that
    a query that is written down is read back. */
module DnsQuery {
  import opened Basics
  import opened KeyOrder
  import opened Address
  import opened DnsMessage
  import opened DnsTheorems
  import opened DnsReply
  import Lru

  // ---------- which questions get a record ----------

  /** Behind the zero octet of the name at `off` stand the bytes 0, 1, 0, 1. */
  predicate AsksForAddress(q: seq<Byte>, qlen: nat, off: nat)
    requires Readable(q, qlen) && off <= qlen
  {
    var e := NameEnd(q, qlen, off);
    e.Some? && e.value + 5 <= qlen && q[e.value + 1..e.value + 5] == [0, 1, 0, 1]
  }

  lemma {:induction false} AddressBytes(q: seq<Byte>, qlen: nat, off: nat)
    requires Readable(q, qlen) && off <= qlen && Complete(q, qlen, off)
    ensures QuestionAt(q, qlen, off).isA <==> AsksForAddress(q, qlen, off)
  {
    var e := NameEnd(q, qlen, off).value;
    var b := q[e + 1..e + 5];
    assert b[0] == q[e + 1] && b[1] == q[e + 2] && b[2] == q[e + 3] && b[3] == q[e + 4];
    assert b == [b[0], b[1], b[2], b[3]];
  }

  /** The questions of a query come one behind the other. */
  lemma {:induction false} Ascending(q: seq<Byte>, qlen: nat, n: nat, i: nat, j: nat)
    requires Readable(q, qlen) && i < j < |Parse(q, qlen, n).questions|
    ensures Parse(q, qlen, n).questions[i].off < Parse(q, qlen, n).questions[j].off
  {
    var p := Parse(q, qlen, n - 1);
    if j < |p.questions| {
      Ascending(q, qlen, n - 1, i, j);
    } else {
      ParsedWithin(q, qlen, n - 1, i);
    }
  }

  /** A question gets a record if and only if it asks for an address, by its bytes. */
  lemma {:induction false} AnsweredIff(q: seq<Byte>, qlen: nat, qd: nat, s: Lru.Cache, max: nat, alloc: seq<bool>,
                                       i: nat)
    requires Readable(q, qlen) && max >= 1 && |alloc| >= qd && forall j :: 0 <= j < qd ==> alloc[j]
    requires i < |Parse(q, qlen, qd).questions|
    ensures var xs := Parse(q, qlen, qd).questions;
      && WithinRead(q, qlen, Parse(q, qlen, qd).off, xs[i])
      && (OffsetIn(xs[i].off, Serve(s, max, xs, alloc).answers) <==> AsksForAddress(q, qlen, xs[i].off))
  {
    var xs := Parse(q, qlen, qd).questions;
    ParsedWithin(q, qlen, qd, i);
    AddressBytes(q, qlen, xs[i].off);
    forall j, k | 0 <= j < k < |xs| ensures xs[j].off < xs[k].off {
      Ascending(q, qlen, qd, j, k);
    }
    OneAnswerEach(s, max, xs, alloc);
    AddressQuestionsIn(xs);
    hide Parse, Serve, AddressQuestions, AsksForAddress, WithinRead;
    var ys, answers := AddressQuestions(xs), Serve(s, max, xs, alloc).answers;
    if xs[i].isA {
      AddressQuestionsAll(xs, i);
      var j :| 0 <= j < |ys| && ys[j] == xs[i];
      assert answers[j].off == xs[i].off;
    }
    if OffsetIn(xs[i].off, answers) {
      var j :| 0 <= j < |answers| && answers[j].off == xs[i].off;
      assert ys[j] in xs;
      var k :| 0 <= k < |xs| && xs[k] == ys[j];
      assert k == i;
    }
  }

  predicate OffsetIn(off: nat, answers: seq<Answer>) {
    exists j :: 0 <= j < |answers| && answers[j].off == off
  }

  lemma {:induction false} AddressQuestionsAll(xs: seq<Question>, i: nat)
    requires i < |xs| && xs[i].isA
    ensures xs[i] in AddressQuestions(xs)
  {
    var n := |xs| - 1;
    if i < n {
      AddressQuestionsAll(xs[..n], i);
    }
  }

  /** How many of the questions at these offsets ask for an address. */
  function AddressCount(q: seq<Byte>, qlen: nat, xs: seq<Question>): nat
    requires Readable(q, qlen)
  {
    if xs == [] then 0
    else
      var n := |xs| - 1;
      AddressCount(q, qlen, xs[..n]) + if xs[n].off <= qlen && AsksForAddress(q, qlen, xs[n].off) then 1 else 0
  }

  lemma {:induction false} CountQuestions(q: seq<Byte>, qlen: nat, off: nat, xs: seq<Question>)
    requires Readable(q, qlen) && forall i :: 0 <= i < |xs| ==> WithinRead(q, qlen, off, xs[i])
    ensures |AddressQuestions(xs)| == AddressCount(q, qlen, xs)
  {
    hide NameEnd, QuestionAt, AsksForAddress, Complete;
    if xs != [] {
      var n := |xs| - 1;
      assert WithinRead(q, qlen, off, xs[n]);
      CountQuestions(q, qlen, off, xs[..n]);
      AddressBytes(q, qlen, xs[n].off);
    }
  }

  /** The reply counts the questions that ask for an address, and has a record for each of
      them; a query without any leaves the cache as it was. */
  lemma {:induction false} AnswerCount(q: seq<Byte>, qlen: nat, qd: nat, s: Lru.Cache, max: nat, net: Word,
                                       alloc: seq<bool>)
    requires Readable(q, qlen) && max >= 1 && qd <= 32 && |alloc| >= qd && forall j :: 0 <= j < qd ==> alloc[j]
    ensures var p := Parse(q, qlen, qd);
      && (forall i :: 0 <= i < |p.questions| ==> WithinRead(q, qlen, p.off, p.questions[i]))
      && var sv, n := Serve(s, max, p.questions, alloc), AddressCount(q, qlen, p.questions);
      && |Reply(q, p.off, net, sv.answers)| == p.off + 16 * n
      && ReadHeader(Reply(q, p.off, net, sv.answers)).an == n
      && (n == 0 ==> sv.cache == s)
  {
    hide Reply, Serve, AddressQuestions, AddressCount, NameEnd, QuestionAt;
    var p := Parse(q, qlen, qd);
    var xs, off := p.questions, p.off;
    forall i | 0 <= i < |xs| ensures WithinRead(q, qlen, off, xs[i]) {
      ParsedWithin(q, qlen, qd, i);
    }
    OneAnswerEach(s, max, xs, alloc);
    CountQuestions(q, qlen, off, xs);
    var sv := Serve(s, max, p.questions, alloc);
    AddressQuestionsFew(p.questions);
    NothingServed(s, max, p.questions, alloc);
    ReplySize(q, p.off, net, sv.answers);
    ReplyHeaderReads(q, p.off, net, sv.answers);
  }

  lemma {:induction false} AddressQuestionsFew(xs: seq<Question>)
    ensures |AddressQuestions(xs)| <= |xs|
  {
    if xs != [] {
      AddressQuestionsFew(xs[..|xs| - 1]);
    }
  }

  lemma {:induction false} ReplySize(q: seq<Byte>, off: nat, net: Word, answers: seq<Answer>)
    requires HEADER <= off <= |q|
    ensures |Reply(q, off, net, answers)| == off + 16 * |answers|
  {
  }

  lemma {:induction false} NothingServed(s: Lru.Cache, max: nat, xs: seq<Question>, alloc: seq<bool>)
    requires max >= 1 && |alloc| >= |xs|
    ensures AddressQuestions(xs) == [] ==> Serve(s, max, xs, alloc).cache == s
    decreases |xs|
  {
    if xs != [] {
      NothingServed(s, max, xs[..|xs| - 1], alloc);
    }
  }

  // ---------- queries that are written down ----------

  /** A question as a client writes it. */
  datatype Asked = Asked(labels: seq<Name>, rtype: nat, class_: nat)

  function NameBytes(labels: seq<Name>): seq<Byte> {
    if labels == [] then [0] else [|labels[0]| % 256] + labels[0] + NameBytes(labels[1..])
  }

  function AskedBytes(x: Asked): seq<Byte> {
    NameBytes(x.labels) + Bytes16(x.rtype) + Bytes16(x.class_)
  }

  function AllBytes(xs: seq<Asked>): seq<Byte> {
    if xs == [] then [] else AllBytes(xs[..|xs| - 1]) + AskedBytes(xs[|xs| - 1])
  }

  /** Labels are not empty and fit their length octet; type and class fit theirs. */
  predicate Writable(x: Asked) {
    && (forall i :: 0 <= i < |x.labels| ==> 1 <= |x.labels[i]| <= 255)
    && x.rtype < 0x1_0000 && x.class_ < 0x1_0000
  }

  /** The bytes of `part` stand at `at`. */
  predicate StandsAt(q: seq<Byte>, at: nat, part: seq<Byte>) {
    at + |part| <= |q| && q[at..at + |part|] == part
  }

  lemma {:induction false} StandsSplit(q: seq<Byte>, at: nat, a: seq<Byte>, b: seq<Byte>)
    requires StandsAt(q, at, a + b)
    ensures StandsAt(q, at, a) && StandsAt(q, at + |a|, b)
  {
    var p := q[at..at + |a + b|];
    assert q[at..at + |a|] == p[..|a|] && q[at + |a|..at + |a| + |b|] == p[|a|..];
  }

  lemma {:induction false} NameReads(q: seq<Byte>, qlen: nat, at: nat, labels: seq<Name>)
    requires Readable(q, qlen) && StandsAt(q, at, NameBytes(labels)) && at + |NameBytes(labels)| <= qlen
    requires forall i :: 0 <= i < |labels| ==> 1 <= |labels[i]| <= 255
    ensures NameEnd(q, qlen, at) == Some(at + |NameBytes(labels)| - 1) && Labels(q, qlen, at) == labels
    decreases |labels|
  {
    hide StandsAt, NameEnd, Labels;
    if labels == [] {
      RootReads(q, qlen, at);
    } else {
      var l := labels[0];
      var len: seq<Byte> := [|l| % 256];
      StandsSplit(q, at, len + l, NameBytes(labels[1..]));
      StandsSplit(q, at, len, l);
      NameNotEmpty(labels[1..]);
      NameReads(q, qlen, at + 1 + |l|, labels[1..]);
      LabelReads(q, qlen, at, l);
      assert labels == [l] + labels[1..];
    }
  }

  lemma {:induction false} RootReads(q: seq<Byte>, qlen: nat, at: nat)
    requires Readable(q, qlen) && StandsAt(q, at, [0]) && at < qlen
    ensures NameEnd(q, qlen, at) == Some(at) && Labels(q, qlen, at) == []
  {
    assert q[at] == q[at..at + 1][0];
  }

  lemma {:induction false} LabelReads(q: seq<Byte>, qlen: nat, at: nat, l: Name)
    requires Readable(q, qlen) && 1 <= |l| <= 255 && at + 1 + |l| < qlen
    requires StandsAt(q, at, [|l| % 256]) && StandsAt(q, at + 1, l)
    ensures var e := NameEnd(q, qlen, at + 1 + |l|);
      NameEnd(q, qlen, at) == e && (e.Some? ==> Labels(q, qlen, at) == [l] + Labels(q, qlen, at + 1 + |l|))
  {
    assert q[at] == q[at..at + 1][0] == |l|;
  }

  lemma {:induction false} NameNotEmpty(labels: seq<Name>)
    ensures |NameBytes(labels)| >= 1
  {
  }

  lemma {:induction false} FieldReads(q: seq<Byte>, at: nat, v: nat)
    requires StandsAt(q, at, Bytes16(v)) && v < 0x1_0000
    ensures U16(q, at) == v
  {
    assert q[at] == q[at..at + 2][0] && q[at + 1] == q[at..at + 2][1];
  }

  lemma {:induction false} AskedReads(q: seq<Byte>, qlen: nat, at: nat, x: Asked)
    requires Readable(q, qlen) && Writable(x) && StandsAt(q, at, AskedBytes(x)) && at + |AskedBytes(x)| <= qlen
    ensures Complete(q, qlen, at) && NameEnd(q, qlen, at).value + 5 == at + |AskedBytes(x)|
    ensures QuestionAt(q, qlen, at) == Question(at, x.rtype == 1 && x.class_ == 1, CString(Dotted(x.labels)))
  {
    hide NameEnd, Labels, NameBytes, Dotted, CString, StandsAt;
    var name, ty, cl := NameBytes(x.labels), Bytes16(x.rtype), Bytes16(x.class_);
    NameNotEmpty(x.labels);
    StandsSplit(q, at, name + ty, cl);
    StandsSplit(q, at, name, ty);
    NameReads(q, qlen, at, x.labels);
    FieldReads(q, at + |name|, x.rtype);
    FieldReads(q, at + |name| + 2, x.class_);
  }

  lemma {:induction false} ParseMore(q: seq<Byte>, qlen: nat, n: nat)
    requires Readable(q, qlen)
    ensures n == 0 ==> Parse(q, qlen, n) == Parsed(true, HEADER, [])
    ensures n > 0 ==>
      var p := Parse(q, qlen, n - 1);
      p.ok && Complete(q, qlen, p.off) ==>
        Parse(q, qlen, n) == Parsed(true, NameEnd(q, qlen, p.off).value + 5, p.questions + [QuestionAt(q, qlen, p.off)])
  {
    hide NameEnd, QuestionAt, Complete;
  }

  /** Where the i-th question stands. */
  function PlaceOf(xs: seq<Asked>, i: nat): nat
    requires i <= |xs|
  {
    HEADER + |AllBytes(xs[..i])|
  }

  /** Reading undoes writing: the questions of a query, whatever follows them, come back in
      order, each with its place, its dotted name, and whether it asks for an address. */
  lemma {:induction false} QueryReads(q: seq<Byte>, qlen: nat, xs: seq<Asked>)
    requires Readable(q, qlen) && StandsAt(q, HEADER, AllBytes(xs)) && HEADER + |AllBytes(xs)| <= qlen
    requires forall i :: 0 <= i < |xs| ==> Writable(xs[i])
    ensures var p := Parse(q, qlen, |xs|);
      && p.ok && p.off == HEADER + |AllBytes(xs)| && |p.questions| == |xs|
      && forall i :: 0 <= i < |xs| ==>
           p.questions[i] ==
           Question(PlaceOf(xs, i), xs[i].rtype == 1 && xs[i].class_ == 1, CString(Dotted(xs[i].labels)))
    decreases |xs|
  {
    hide AskedBytes, NameEnd, Dotted, CString, QuestionAt, StandsAt, Complete, Writable, Parse;
    ParseMore(q, qlen, |xs|);
    if xs != [] {
      var n := |xs| - 1;
      var init := xs[..n];
      StandsSplit(q, HEADER, AllBytes(init), AskedBytes(xs[n]));
      QueryReads(q, qlen, init);
      AskedReads(q, qlen, HEADER + |AllBytes(init)|, xs[n]);
      assert forall i :: 0 <= i < n ==> init[..i] == xs[..i];
    }
  }
}
