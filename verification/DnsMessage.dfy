/** DNS messages as byte strings (sections 4.1.1 to 4.1.4 of RFC 1035): how
    `hev_mapped_dns_handle` reads a query and what its reply says. */
module DnsMessage {
  import opened Basics
  import opened KeyOrder
  import opened Address
  import opened Lru

  const HEADER: nat := 12
  const DOT: Byte := 0x2E

  function U16(s: seq<Byte>, i: nat): nat
    requires i + 1 < |s|
  {
    var hi: int := s[i];
    hi * 256 + s[i + 1]
  }

  // ---------- questions ----------

  /** The message is `q[..qlen]`; one byte after it may be looked at. */
  predicate Readable(q: seq<Byte>, qlen: nat) {
    HEADER <= qlen < |q|
  }

  /** Index of the zero octet that ends the name at `off`, or None if a label leads out
      of the message. */
  function NameEnd(q: seq<Byte>, qlen: nat, off: nat): (r: Option<nat>)
    requires Readable(q, qlen) && off <= qlen
    ensures r.Some? ==> off <= r.value <= qlen && q[r.value] == 0
    decreases qlen - off
  {
    if q[off] == 0 then Some(off)
    else if off + 1 + q[off] >= qlen then None
    else NameEnd(q, qlen, off + 1 + q[off])
  }

  /** The labels of the name at `off`. */
  function Labels(q: seq<Byte>, qlen: nat, off: nat): seq<Name>
    requires Readable(q, qlen) && off <= qlen && NameEnd(q, qlen, off).Some?
    decreases qlen - off
  {
    if q[off] == 0 then []
    else [q[off + 1..off + 1 + q[off]]] + Labels(q, qlen, off + 1 + q[off])
  }

  /** Labels separated by dots. */
  function Dotted(labels: seq<Name>): Name {
    if labels == [] then []
    else if |labels| == 1 then labels[0]
    else labels[0] + [DOT] + Dotted(labels[1..])
  }

  /** A byte string as C sees it. */
  function CString(s: seq<Byte>): Name {
    if s == [] || s[0] == 0 then [] else [s[0]] + CString(s[1..])
  }

  /** The name that a question is looked up by. */
  function QuestionName(q: seq<Byte>, qlen: nat, off: nat): Name
    requires Readable(q, qlen) && off <= qlen && NameEnd(q, qlen, off).Some?
  {
    CString(Dotted(Labels(q, qlen, off)))
  }

  /** A label with a zero octet cuts the name short; all others keep it whole. */
  lemma {:induction false} CStringWhole(s: Name)
    ensures CString(s) == s <==> forall i :: 0 <= i < |s| ==> s[i] != 0
  {
    if s != [] && s[0] != 0 {
      CStringWhole(s[1..]);
      assert s == [s[0]] + s[1..];
      assert forall i :: 0 <= i < |s[1..]| ==> s[1..][i] == s[i + 1];
    }
  }

  /** The bytes of the name at `off` after its length octets were turned into dots. */
  function Masked(q: seq<Byte>, qlen: nat, off: nat): (r: seq<Byte>)
    requires Readable(q, qlen) && off <= qlen && NameEnd(q, qlen, off).Some?
    ensures |r| == NameEnd(q, qlen, off).value - off
    decreases qlen - off
  {
    if q[off] == 0 then []
    else [DOT] + q[off + 1..off + 1 + q[off]] + Masked(q, qlen, off + 1 + q[off])
  }

  /** Without its first dot that is the dotted form of the labels. */
  lemma {:induction false} MaskedIsDotted(q: seq<Byte>, qlen: nat, off: nat)
    requires Readable(q, qlen) && off <= qlen && NameEnd(q, qlen, off).Some?
    ensures var d := Dotted(Labels(q, qlen, off));
      Masked(q, qlen, off) == if q[off] == 0 then [] else [DOT] + d
    decreases qlen - off
  {
    if q[off] != 0 {
      var next := off + 1 + q[off];
      var l := q[off + 1..next];
      MaskedIsDotted(q, qlen, next);
      var labels := Labels(q, qlen, next);
      assert ([l] + labels)[1..] == labels;
      if q[next] == 0 {
        assert Dotted([l]) == l;
      } else {
        assert labels != [];
        assert [DOT] + l + ([DOT] + Dotted(labels)) == [DOT] + (l + [DOT] + Dotted(labels));
      }
    }
  }

  lemma {:induction false} CStringStops(a: seq<Byte>, b: seq<Byte>)
    ensures CString(a + [0] + b) == CString(a)
  {
    var s := a + [0] + b;
    if a == [] {
      assert s[0] == 0;
    } else if a[0] != 0 {
      assert s[0] == a[0] && s[1..] == a[1..] + [0] + b;
      CStringStops(a[1..], b);
    } else {
      assert s[0] == 0;
    }
  }

  // ---------- the questions of a query ----------

  /** Where a question starts, whether it asks for an address, and by which name. */
  datatype Question = Question(off: nat, isA: bool, name: Name)

  /** The questions read, whether that was all of them, and where reading stopped. */
  datatype Parsed = Parsed(ok: bool, off: nat, questions: seq<Question>)

  /** Type A and class IN in the four bytes behind the name. */
  predicate IsInternetA(q: seq<Byte>, i: nat)
    requires i + 3 < |q|
  {
    U16(q, i) == 1 && U16(q, i + 2) == 1
  }

  /** The name at `off` ends inside the message and type and class follow it. */
  predicate Complete(q: seq<Byte>, qlen: nat, off: nat)
    requires Readable(q, qlen) && off <= qlen
  {
    NameEnd(q, qlen, off).Some? && NameEnd(q, qlen, off).value + 4 < qlen
  }

  function QuestionAt(q: seq<Byte>, qlen: nat, off: nat): Question
    requires Readable(q, qlen) && off <= qlen && Complete(q, qlen, off)
  {
    Question(off, IsInternetA(q, NameEnd(q, qlen, off).value + 1), QuestionName(q, qlen, off))
  }

  /** Reads the first `n` questions behind the header. */
  function Parse(q: seq<Byte>, qlen: nat, n: nat): (r: Parsed)
    requires Readable(q, qlen)
    ensures HEADER <= r.off <= qlen && |r.questions| <= n && (r.ok ==> |r.questions| == n)
  {
    if n == 0 then Parsed(true, HEADER, [])
    else
      var p := Parse(q, qlen, n - 1);
      if !p.ok then p
      else if !Complete(q, qlen, p.off) then p.(ok := false)
      else Parsed(true, NameEnd(q, qlen, p.off).value + 5, p.questions + [QuestionAt(q, qlen, p.off)])
  }

  /** A question that does not fit ends the reading. */
  lemma {:induction false} ParseStuck(q: seq<Byte>, qlen: nat, i: nat, n: nat)
    requires Readable(q, qlen) && i <= n && !Parse(q, qlen, i).ok
    ensures Parse(q, qlen, n) == Parse(q, qlen, i)
    decreases n
  {
    if i < n {
      ParseStuck(q, qlen, i, n - 1);
    }
  }

  // ---------- records for the address questions ----------

  datatype Answer = Answer(off: nat, idx: nat, name: Name)

  datatype Served = Served(answers: seq<Answer>, cache: Cache)

  /** Finds a record for one question; `alloc` says whether memory can be had. */
  function ServeOne(sv: Served, max: nat, x: Question, alloc: bool): Served
    requires max >= 1
  {
    if !x.isA then sv
    else
      var idx := FindIdx(sv.cache, max, x.name, alloc);
      Served(if idx < 0 then sv.answers else sv.answers + [Answer(x.off, idx, x.name)],
             Find(sv.cache, max, x.name, alloc))
  }

  /** The answers to the questions, in order, and the cache afterwards. */
  function Serve(s: Cache, max: nat, xs: seq<Question>, alloc: seq<bool>): Served
    requires max >= 1 && |alloc| >= |xs|
    decreases |xs|
  {
    if xs == [] then Served([], s)
    else ServeOne(Serve(s, max, xs[..|xs| - 1], alloc), max, xs[|xs| - 1], alloc[|xs| - 1])
  }

  lemma {:induction false} ServeSnoc(s: Cache, max: nat, xs: seq<Question>, x: Question, alloc: seq<bool>)
    requires max >= 1 && |alloc| > |xs|
    ensures Serve(s, max, xs + [x], alloc) == ServeOne(Serve(s, max, xs, alloc), max, x, alloc[|xs|])
  {
    assert (xs + [x])[..|xs|] == xs;
  }

  // ---------- the reply ----------

  function Bytes16(v: nat): seq<Byte> {
    [v / 256 % 256, v % 256]
  }

  function Bytes32(v: nat): seq<Byte> {
    [v / 0x100_0000 % 256, v / 0x1_0000 % 256, v / 0x100 % 256, v % 256]
  }

  /** One 16-byte A record with a pointer to the question's name. */
  function Record(net: Word, a: Answer): (r: seq<Byte>)
    ensures |r| == 16
  {
    [0xC0, a.off % 256] + Bytes16(1) + Bytes16(1) + Bytes32(1) + Bytes16(4) + Bytes32(Mint(net, a.idx))
  }

  function Records(net: Word, answers: seq<Answer>): (r: seq<Byte>)
    ensures |r| == 16 * |answers|
  {
    if answers == [] then [] else Records(net, answers[..|answers| - 1]) + Record(net, answers[|answers| - 1])
  }

  /** Sets QR, and RA when RD is set. */
  function ReplyFlags(fl: nat): nat {
    Or(Or(fl, 0x8000), And(fl, 0x100) / 2)
  }

  function ReplyHeader(q: seq<Byte>, count: nat): (r: seq<Byte>)
    requires |q| >= HEADER
    ensures |r| == HEADER
  {
    var fl := Bytes16(ReplyFlags(U16(q, 2)));
    var n := Bytes16(count);
    [q[0], q[1], fl[0], fl[1], q[4], q[5], n[0], n[1], 0, 0, 0, 0]
  }

  /** The header of the query with its last three counts cleared. */
  function BlankHeader(q: seq<Byte>): (r: seq<Byte>)
    requires |q| >= HEADER
    ensures |r| == HEADER
  {
    [q[0], q[1], q[2], q[3], q[4], q[5], 0, 0, 0, 0, 0, 0]
  }

  function Reply(q: seq<Byte>, off: nat, net: Word, answers: seq<Answer>): seq<Byte>
    requires HEADER <= off <= |q|
  {
    ReplyHeader(q, |answers|) + q[HEADER..off] + Records(net, answers)
  }
}
