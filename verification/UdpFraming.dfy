/** UDP messages framed in a TCP stream (hev-socks5-udp.c): a two-byte data length, a
    one-byte header length, the address and the data. */
module UdpFraming {
  import opened KeyOrder
  import opened SocksAddr

  datatype Message = Message(addr: Bytes, data: Bytes)

  /** Both lengths as they are cut to their fields. */
  function Frame(m: Message): Bytes {
    [|m.data| / 256 % 256, |m.data| % 256, (3 + |m.addr|) % 256] + m.addr + m.data
  }

  function Frames(ms: seq<Message>): Bytes {
    if ms == [] then [] else Frame(ms[0]) + Frames(ms[1..])
  }

  predicate WellAddressed(ms: seq<Message>) {
    forall i :: 0 <= i < |ms| ==> WholeAddr(ms[i].addr)
  }

  /** The lengths fit their fields and the message fits a receive buffer of `cap` bytes. */
  predicate Fits(m: Message, cap: nat) {
    3 + |m.addr| <= 255 && |m.data| <= 65535 && |m.addr| + |m.data| <= cap
  }

  predicate AllFit(ms: seq<Message>, cap: nat) {
    forall i :: 0 <= i < |ms| ==> WholeAddr(ms[i].addr) && Fits(ms[i], cap)
  }

  lemma {:induction false} FramesSnoc(ms: seq<Message>, m: Message)
    ensures Frames(ms + [m]) == Frames(ms) + Frame(m)
  {
    if ms == [] {
      assert (ms + [m])[1..] == [];
    } else {
      assert (ms + [m])[1..] == ms[1..] + [m];
      FramesSnoc(ms[1..], m);
    }
  }

  // ---------- sending ----------

  /** A message to send: the address structure may be longer than the address in it. */
  datatype Outgoing = Outgoing(addr: Bytes, data: Bytes)

  predicate Addressed(x: Outgoing) {
    |x.addr| >= 2 && 0 < AddrLen(x.addr) <= |x.addr|
  }

  function Content(x: Outgoing): Message
    requires Addressed(x)
  {
    Message(x.addr[..AddrLen(x.addr)], x.data)
  }

  function Sent(xs: seq<Outgoing>): seq<Message>
    requires forall i :: 0 <= i < |xs| ==> Addressed(xs[i])
  {
    seq(|xs|, i requires 0 <= i < |xs| => Content(xs[i]))
  }

  /** `hev_socks5_udp_sendmmsg_tcp`: gathers three pieces per message and sends them all,
      or nothing when an address has an unknown type. */
  method SendBatch(xs: seq<Outgoing>) returns (res: int, wire: Bytes)
    requires forall i :: 0 <= i < |xs| ==> |xs[i].addr| >= 2 && AddrLen(xs[i].addr) <= |xs[i].addr|
    ensures if forall i :: 0 <= i < |xs| ==> Addressed(xs[i])
            then res == |xs| && wire == Frames(Sent(xs)) && WellAddressed(Sent(xs))
            else res == -1 && wire == []
  {
    var iov: seq<Bytes> := [];
    ghost var done: seq<Message> := [];
    for i := 0 to |xs|
      invariant forall j :: 0 <= j < i ==> Addressed(xs[j])
      invariant |done| == i && (forall j :: 0 <= j < i ==> done[j] == Content(xs[j]))
      invariant Concat(iov) == Frames(done)
    {
      var addrlen := AddrLen(xs[i].addr);
      if addrlen <= 0 {
        return -1, [];
      }
      var dat := |xs[i].data|;
      var udp: Bytes := [dat / 256 % 256, dat % 256, (3 + addrlen) % 256];
      ghost var m := Content(xs[i]);
      FramesSnoc(done, m);
      ConcatThree(iov, udp, xs[i].addr[..addrlen], xs[i].data);
      iov := iov + [udp, xs[i].addr[..addrlen], xs[i].data];
      done := done + [m];
    }
    assert done == Sent(xs);
    res, wire := |xs|, Concat(iov);
  }

  function Concat(iov: seq<Bytes>): Bytes {
    if iov == [] then [] else Concat(iov[..|iov| - 1]) + iov[|iov| - 1]
  }

  lemma {:induction false} ConcatThree(iov: seq<Bytes>, a: Bytes, b: Bytes, c: Bytes)
    ensures Concat(iov + [a, b, c]) == Concat(iov) + (a + b + c)
  {
    var x := iov + [a];
    var y := x + [b];
    var z := y + [c];
    assert iov + [a, b, c] == z;
    assert x[..|iov|] == iov && y[..|x|] == x && z[..|y|] == y;
    assert Concat(x) == Concat(iov) + a;
    assert Concat(y) == Concat(x) + b;
    assert Concat(z) == Concat(y) + c;
  }

  // ---------- receiving ----------

  /** No address is longer than a one-byte header length allows; every receive buffer is. */
  const MAX_ADDR: nat := 252

  /** The receiving end of the stream: all bytes that will arrive. */
  class Stream {
    var bytes: Bytes

    constructor (bytes: Bytes)
      ensures this.bytes == bytes
    {
      this.bytes := bytes;
    }

    method Take(n: nat) returns (r: Bytes)
      requires n <= |bytes|
      modifies this
      ensures r == old(bytes)[..n] && bytes == old(bytes)[n..]
    {
      r := bytes[..n];
      bytes := bytes[n..];
    }
  }

  // ---------- what the socket returns ----------

  /** A read that waits for all its bytes gets them, unless the stream ends or fails: then it
      returns how many came, or a result that is not positive. */
  datatype Waited = All | Short(res: int)

  /** The reads for one message: the first takes up to five bytes and may return early, the
      second completes the five, the third takes the rest of the message. */
  datatype Reads = Reads(first: int, more: Waited, body: Waited)

  /** The waited reads, if there are any, get all their bytes. */
  predicate Steady(r: Reads) {
    r.first > 0 ==> r.more.All? && r.body.All?
  }

  function Count(res: int): nat {
    if res > 0 then res else 0
  }

  /** The header is there after one read or two. */
  predicate HeadRead(r: Reads) {
    r.first > 0 && (r.first >= 5 || r.more.All?)
  }

  /** What stands for the number of header bytes when it is not five: the two results added. */
  function HeadResult(r: Reads): int {
    if 0 < r.first < 5 && r.more.Short? then r.first + r.more.res else r.first
  }

  function DatLen(s: Bytes): nat
    requires |s| >= 2
  {
    (s[0] as int) * 256 + s[1]
  }

  /** The header describes a message that fits. */
  predicate Acceptable(s: Bytes, cap: nat)
    requires |s| >= 5 && cap >= MAX_ADDR
  {
    s[2] >= 5 && DatLen(s) <= cap - (s[2] - 3)
  }

  /** The bytes asked for behind the five header bytes. */
  function Want(s: Bytes): int
    requires |s| >= 5
  {
    s[2] as int - 5 + DatLen(s)
  }

  /** What a socket can return: never more than was asked for, and never more than there is. */
  predicate Possible(s: Bytes, cap: nat, r: Reads)
    requires cap >= MAX_ADDR
  {
    && r.first <= 5 && r.first <= |s|
    && (0 < r.first < 5 && r.more.Short? ==> r.more.res < 5 - r.first && r.first + Count(r.more.res) <= |s|)
    && (HeadRead(r) ==> |s| >= 5)
    && (HeadRead(r) && Acceptable(s, cap) ==>
          if r.body.All? then 5 + Want(s) <= |s| else r.body.res < Want(s) && 5 + Count(r.body.res) <= |s|)
  }

  datatype Received =
    /** No header: what the reads returned. */
    | Nothing(res: int)
    | Bad
    /** A header, but not all that belongs to it. */
    | Cut(res: int)
    | Got(m: Message)

  /** One message's worth of reads. */
  function Receive(s: Bytes, cap: nat, r: Reads): Received
    requires cap >= MAX_ADDR
  {
    if !HeadRead(r) || |s| < 5 then Nothing(HeadResult(r))
    else if !Acceptable(s, cap) then Bad
    else if r.body.Short? then Cut(r.body.res)
    else if |s| < s[2] as int + DatLen(s) then Bad
    else Got(Message(s[3..s[2]], s[s[2]..s[2] as int + DatLen(s)]))
  }

  /** The bytes that those reads took. */
  function Taken(s: Bytes, cap: nat, r: Reads): nat
    requires cap >= MAX_ADDR
  {
    if r.first <= 0 then 0
    else if !HeadRead(r) then r.first + Count(r.more.res)
    else if |s| < 5 then 0
    else if !Acceptable(s, cap) then 5
    else 5 + if r.body.Short? then Count(r.body.res) else Want(s)
  }

  function Left(s: Bytes, cap: nat, r: Reads): Bytes
    requires cap >= MAX_ADDR
  {
    if Taken(s, cap, r) <= |s| then s[Taken(s, cap, r)..] else []
  }

  lemma {:induction false} MiddleParts(head: Bytes, a: Bytes, b: Bytes, rest: Bytes)
    ensures var s, i, j := head + a + b + rest, |head|, |head| + |a|; s[i..j] == a && s[j..j + |b|] == b
  {
  }

  /** A message comes back exactly when it fits, whatever follows it and however few
      bytes the first read returns. */
  lemma {:induction false} RoundTripIff(m: Message, rest: Bytes, cap: nat, r: Reads)
    requires WholeAddr(m.addr) && cap >= MAX_ADDR && r.first >= 1 && Steady(r)
    ensures Receive(Frame(m) + rest, cap, r) == Got(m) <==> Fits(m, cap)
  {
    hide Frame, Receive;
    var s, n, a := Frame(m) + rest, |m.data|, |m.addr|;
    FrameFields(m, rest);
    if 3 + a <= 255 && n <= 65535 {
      ReceiveFields(s, cap, r, a, n);
    } else {
      ReceivedFits(s, cap, r);
    }
  }

  lemma {:induction false} FrameFields(m: Message, rest: Bytes)
    ensures var s, n, a := Frame(m) + rest, |m.data|, |m.addr|;
      && |s| == 3 + a + n + |rest| && DatLen(s) == n % 65536 && s[2] == (3 + a) % 256
      && s[3..3 + a] == m.addr && s[3 + a..3 + a + n] == m.data
  {
    var s, n, a := Frame(m) + rest, |m.data|, |m.addr|;
    var head: Bytes := [n / 256 % 256, n % 256, (3 + a) % 256];
    assert s == head + m.addr + m.data + rest;
    MiddleParts(head, m.addr, m.data, rest);
    Halves(n);
  }

  lemma {:induction false} Halves(n: nat)
    ensures n / 256 % 256 * 256 + n % 256 == n % 65536
  {
  }

  lemma {:induction false} ReceiveFields(s: Bytes, cap: nat, r: Reads, a: nat, n: nat)
    requires cap >= MAX_ADDR && r.first >= 1 && Steady(r) && 2 <= a && 3 + a + n <= |s|
    requires DatLen(s) == n && s[2] == 3 + a
    ensures Receive(s, cap, r) == if a + n <= cap then Got(Message(s[3..3 + a], s[3 + a..3 + a + n])) else Bad
  {
    hide DatLen;
  }

  lemma {:induction false} ReceivedFits(s: Bytes, cap: nat, r: Reads)
    requires cap >= MAX_ADDR
    ensures var x := Receive(s, cap, r); x.Got? ==> |x.m.data| <= 65535 && |x.m.addr| <= 252
  {
  }

  /** One byte more than the length field holds: the receiver takes the message for an empty one. */
  lemma {:induction false} TooLong(addr: Bytes, data: Bytes, rest: Bytes, cap: nat, r: Reads)
    requires WholeAddr(addr) && |addr| == 7 && |data| == 65536 && cap >= MAX_ADDR && r.first >= 1 && Steady(r)
    ensures Receive(Frame(Message(addr, data)) + rest, cap, r) == Got(Message(addr, []))
  {
    hide Frame, Receive;
    var s := Frame(Message(addr, data)) + rest;
    FrameFields(Message(addr, data), rest);
    ReceiveFields(s, cap, r, 7, 0);
  }

  // ---------- one message ----------

  /** The five header bytes, in two reads if the first one is short. */
  method ReceiveHeader(stream: Stream, cap: nat, rd: Reads) returns (res: int, udp: Bytes)
    requires cap >= MAX_ADDR && Possible(stream.bytes, cap, rd)
    modifies stream
    ensures res == (if HeadRead(rd) then 5 else HeadResult(rd))
    ensures HeadRead(rd) ==>
      |old(stream.bytes)| >= 5 && udp == old(stream.bytes)[..5] && stream.bytes == old(stream.bytes)[5..]
    ensures !HeadRead(rd) ==> udp == [] && res != 5 && stream.bytes == Left(old(stream.bytes), cap, rd)
  {
    res, udp := rd.first, [];
    if rd.first <= 0 {
      return;
    }
    udp := stream.Take(rd.first);
    if rd.first < 5 {
      match rd.more
      case All =>
        var more := stream.Take(5 - rd.first);
        res, udp := 5, udp + more;
      case Short(n) =>
        var more := stream.Take(Count(n));
        res, udp := res + n, [];
    }
  }

  /** The rest of the address and the data, scattered into the buffer behind the place of
      the two address bytes that came with the header; as many bytes as came. */
  method ReceiveBody(stream: Stream, buf: array<Byte>, n: nat)
    requires 2 + n <= buf.Length && n <= |stream.bytes|
    modifies stream, buf
    ensures buf[2..2 + n] == old(stream.bytes)[..n] && stream.bytes == old(stream.bytes)[n..]
    ensures buf[..2] == old(buf[..2])
  {
    var body := stream.Take(n);
    forall i | 2 <= i < 2 + n {
      buf[i] := body[i - 2];
    }
  }

  /** How a message ends: received, no header, refused, or cut short. */
  datatype End = Received | NoHead | Refusal | Partial

  /** One message into one buffer. */
  method ReceiveOne(stream: Stream, buf: array<Byte>, rd: Reads) returns (end: End, res: int, addrlen: nat, datlen: nat)
    requires buf.Length >= MAX_ADDR && Possible(stream.bytes, buf.Length, rd)
    modifies stream, buf
    ensures stream.bytes == Left(old(stream.bytes), buf.Length, rd)
    ensures var x := Receive(old(stream.bytes), buf.Length, rd);
      match x
      case Nothing(n) => end == NoHead && res == n
      case Bad => end == Refusal && res == -1
      case Cut(n) => end == Partial && res == n
      case Got(m) =>
        && end == Received && addrlen + datlen <= buf.Length
        && m == Message(buf[..addrlen], buf[addrlen..addrlen + datlen])
  {
    ghost var s := stream.bytes;
    var udp;
    end, addrlen, datlen := NoHead, 0, 0;
    res, udp := ReceiveHeader(stream, buf.Length, rd);
    if res != 5 {
      return;
    }
    end, res := Refusal, -1;
    if udp[2] < 5 {
      return;
    }
    addrlen, datlen := udp[2] - 3, DatLen(udp);
    if datlen > buf.Length - addrlen {
      return;
    }
    assert Acceptable(s, buf.Length) && Want(s) == addrlen - 2 + datlen;
    if rd.body.Short? {
      ReceiveBody(stream, buf, Count(rd.body.res));
      end, res := Partial, rd.body.res;
      return;
    }
    ReceiveBody(stream, buf, addrlen - 2 + datlen);
    buf[0] := udp[3];
    buf[1] := udp[4];
    Scattered(buf[..], s, addrlen, datlen);
    end := Received;
  }

  lemma {:induction false} Scattered(b: Bytes, s: Bytes, addrlen: nat, datlen: nat)
    requires 2 <= addrlen && 3 + addrlen + datlen <= |s| && addrlen + datlen <= |b|
    requires b[0] == s[3] && b[1] == s[4] && b[2..addrlen + datlen] == s[5..][..addrlen - 2 + datlen]
    ensures b[..addrlen] == s[3..3 + addrlen] && b[addrlen..addrlen + datlen] == s[3 + addrlen..3 + addrlen + datlen]
    ensures s[5..][addrlen - 2 + datlen..] == s[3 + addrlen + datlen..]
  {
    forall i | 2 <= i < addrlen + datlen ensures b[i] == s[3 + i] {
      assert b[i] == b[2..addrlen + datlen][i - 2] == s[5..][i - 2];
    }
    var n := addrlen + datlen;
    assert b[..n] == s[3..3 + n];
    assert b[..addrlen] == b[..n][..addrlen] && b[addrlen..n] == b[..n][addrlen..];
  }

  // ---------- batches ----------

  /** Why a batch ended: no slot left, no header, a message that is refused, or one that
      is cut short. */
  datatype Stop = Full | Dry(res: int) | Refused | Broken(res: int)

  datatype Batch = Batch(msgs: seq<Message>, rest: Bytes, stop: Stop)

  /** One batch, with the reads for each slot. */
  function ReceiveBatch(s: Bytes, cap: nat, rds: seq<Reads>): Batch
    requires cap >= MAX_ADDR
    decreases |rds|
  {
    if rds == [] then Batch([], s, Full)
    else
      var left := Left(s, cap, rds[0]);
      match Receive(s, cap, rds[0])
      case Nothing(res) => Batch([], left, Dry(res))
      case Bad => Batch([], left, Refused)
      case Cut(res) => Batch([], left, Broken(res))
      case Got(m) =>
        var b := ReceiveBatch(left, cap, rds[1..]);
        b.(msgs := [m] + b.msgs)
  }

  predicate BatchPossible(s: Bytes, cap: nat, rds: seq<Reads>)
    requires cap >= MAX_ADDR
    decreases |rds|
  {
    rds == [] ||
    (Possible(s, cap, rds[0]) &&
     match Receive(s, cap, rds[0])
     case Got(m) => BatchPossible(Left(s, cap, rds[0]), cap, rds[1..])
     case _ => true)
  }

  /** The return value. */
  function BatchResult(b: Batch): int {
    match b.stop
    case Full => |b.msgs|
    case Dry(res) => if b.msgs == [] then res else |b.msgs|
    case Refused => -1
    case Broken(res) => res
  }

  /** Behind `n` messages: some bytes of a header came but not all and there is no message to
      report, or some bytes of a body came but not all, and not as many as there are messages. */
  predicate Misleads(s: Bytes, cap: nat, rds: seq<Reads>, n: nat)
    requires cap >= MAX_ADDR
    decreases |rds|
  {
    rds != [] &&
    match Receive(s, cap, rds[0])
    case Nothing(res) => n == 0 && res > 0
    case Bad => false
    case Cut(res) => res > 0 && res != n
    case Got(_) => Misleads(Left(s, cap, rds[0]), cap, rds[1..], n + 1)
  }

  /** The return value is the number of messages, or not positive, exactly when no read came
      back short like that. */
  lemma {:induction false} ResultIff(s: Bytes, cap: nat, rds: seq<Reads>)
    requires cap >= MAX_ADDR
    ensures var b := ReceiveBatch(s, cap, rds);
      (BatchResult(b) <= 0 || BatchResult(b) == |b.msgs|) <==> !Misleads(s, cap, rds, 0)
  {
    MisleadsIff(s, cap, rds, []);
  }

  lemma {:induction false} MisleadsIff(s: Bytes, cap: nat, rds: seq<Reads>, msgs: seq<Message>)
    requires cap >= MAX_ADDR
    ensures var r := BatchResult(Continued(msgs, s, cap, rds));
      (r <= 0 || r == |Continued(msgs, s, cap, rds).msgs|) <==> !Misleads(s, cap, rds, |msgs|)
    decreases |rds|
  {
    hide Receive, Left;
    if rds != [] {
      match Receive(s, cap, rds[0])
      case Got(m) =>
        MisleadsIff(Left(s, cap, rds[0]), cap, rds[1..], msgs + [m]);
        var after := ReceiveBatch(Left(s, cap, rds[0]), cap, rds[1..]);
        assert msgs + ([m] + after.msgs) == msgs + [m] + after.msgs;
      case _ =>
    }
  }

  /** The messages `msgs`, and then those that the remaining reads get. */
  ghost function Continued(msgs: seq<Message>, s: Bytes, cap: nat, rds: seq<Reads>): Batch
    requires cap >= MAX_ADDR
  {
    var b := ReceiveBatch(s, cap, rds);
    b.(msgs := msgs + b.msgs)
  }

  /** What the reads for one slot returned, in bytes. */
  function Returned(s: Bytes, cap: nat, r: Reads): nat
    requires cap >= MAX_ADDR
  {
    Count(r.first) +
    (if !(0 < r.first < 5) then 0 else match r.more case All => 5 - r.first case Short(n) => Count(n)) +
    (if !HeadRead(r) || |s| < 5 || !Acceptable(s, cap) then 0
     else match r.body case All => Want(s) case Short(n) => Count(n))
  }

  function ReturnedAll(s: Bytes, cap: nat, rds: seq<Reads>): nat
    requires cap >= MAX_ADDR
    decreases |rds|
  {
    if rds == [] then 0
    else
      var n := Returned(s, cap, rds[0]);
      n + if n <= |s| && Receive(s, cap, rds[0]).Got? then ReturnedAll(s[n..], cap, rds[1..]) else 0
  }

  /** However a message ends, exactly what the reads returned is gone from the stream. */
  lemma {:induction false} Conserved(s: Bytes, cap: nat, rds: seq<Reads>)
    requires cap >= MAX_ADDR && BatchPossible(s, cap, rds)
    ensures ReturnedAll(s, cap, rds) <= |s| && ReceiveBatch(s, cap, rds).rest == s[ReturnedAll(s, cap, rds)..]
    decreases |rds|
  {
    if rds == [] {
      assert s[0..] == s;
    } else {
      ConservedOne(s, cap, rds[0]);
      hide Receive, Left, Possible, Returned;
      var n := Returned(s, cap, rds[0]);
      if Receive(s, cap, rds[0]).Got? {
        Conserved(s[n..], cap, rds[1..]);
      }
    }
  }

  lemma {:induction false} ConservedOne(s: Bytes, cap: nat, r: Reads)
    requires cap >= MAX_ADDR && Possible(s, cap, r)
    ensures Returned(s, cap, r) <= |s| && Left(s, cap, r) == s[Returned(s, cap, r)..]
  {
  }

  /** A header that is cut short in the first slot gives no message, but the result is what
      the two reads returned together. */
  lemma {:induction false} ShortHeader(s: Bytes, cap: nat, rds: seq<Reads>)
    requires cap >= MAX_ADDR && rds != [] && 0 < rds[0].first < 5 && rds[0].more.Short?
    ensures var b := ReceiveBatch(s, cap, rds);
      b.msgs == [] && BatchResult(b) == rds[0].first + rds[0].more.res
  {
  }

  /** Three header bytes and then the end of the stream: no message, but the result is 3. */
  lemma {:induction false} CutHeader(a: Byte, b: Byte, c: Byte, cap: nat)
    requires cap >= MAX_ADDR
    ensures var rds := [Reads(3, Short(0), All)];
      && BatchPossible([a, b, c], cap, rds)
      && ReceiveBatch([a, b, c], cap, rds).msgs == [] && BatchResult(ReceiveBatch([a, b, c], cap, rds)) == 3
  {
  }

  /** With waited reads that do not fail, the result is the number of messages; with none,
      what the first read returned; and -1 when a message is refused. */
  lemma {:induction false} SteadyResult(s: Bytes, cap: nat, rds: seq<Reads>)
    requires cap >= MAX_ADDR && BatchPossible(s, cap, rds) && forall i :: 0 <= i < |rds| ==> Steady(rds[i])
    ensures var b := ReceiveBatch(s, cap, rds);
      var r := BatchResult(b);
      && (b.stop != Refused && b.msgs != [] ==> r == |b.msgs|)
      && (b.stop != Refused && b.msgs == [] ==> r == if rds == [] then 0 else rds[0].first)
      && (r == -1 <==> b.stop == Refused || (b.msgs == [] && rds != [] && rds[0].first == -1))
  {
    SteadyStop(s, cap, rds);
    SteadyFirst(s, cap, rds);
  }

  lemma {:induction false} SteadyFirst(s: Bytes, cap: nat, rds: seq<Reads>)
    requires cap >= MAX_ADDR && BatchPossible(s, cap, rds) && forall i :: 0 <= i < |rds| ==> Steady(rds[i])
    ensures var b := ReceiveBatch(s, cap, rds);
      && (b.msgs == [] && rds != [] && rds[0].first < 0 ==> b.stop == Dry(rds[0].first))
      && (b.msgs == [] && b.stop != Refused ==> b.stop == if rds == [] then Full else Dry(rds[0].first))
  {
  }

  lemma {:induction false} SteadyStop(s: Bytes, cap: nat, rds: seq<Reads>)
    requires cap >= MAX_ADDR && BatchPossible(s, cap, rds) && forall i :: 0 <= i < |rds| ==> Steady(rds[i])
    ensures var b := ReceiveBatch(s, cap, rds); !b.stop.Broken? && (b.stop.Dry? ==> b.stop.res <= 0)
    decreases |rds|
  {
    if rds != [] {
      match Receive(s, cap, rds[0])
      case Got(m) => SteadyStop(Left(s, cap, rds[0]), cap, rds[1..]);
      case _ =>
    }
  }

  /** The i-th slot holds message `m`. */
  ghost predicate Holds(buf: array<Byte>, len: (nat, nat), m: Message)
    reads buf
  {
    len.0 + len.1 <= buf.Length && m == Message(buf[..len.0], buf[len.0..len.0 + len.1])
  }

  lemma {:induction false} BatchStep(msgs: seq<Message>, s: Bytes, cap: nat, rds: seq<Reads>, i: nat)
    requires cap >= MAX_ADDR && i < |rds| && BatchPossible(s, cap, rds[i..])
    ensures Possible(s, cap, rds[i])
    ensures var b, x := Continued(msgs, s, cap, rds[i..]), Receive(s, cap, rds[i]);
      var left := Left(s, cap, rds[i]);
      match x
      case Nothing(res) => b == Batch(msgs, left, Dry(res))
      case Bad => b == Batch(msgs, left, Refused)
      case Cut(res) => b == Batch(msgs, left, Broken(res))
      case Got(m) => BatchPossible(left, cap, rds[i + 1..]) && b == Continued(msgs + [m], left, cap, rds[i + 1..])
  {
    hide Possible, Left, Receive;
    var t := rds[i..];
    assert t[0] == rds[i] && t[1..] == rds[i + 1..];
    assert msgs + [] == msgs;
    match Receive(s, cap, rds[i])
    case Got(m) =>
      var after := ReceiveBatch(Left(s, cap, rds[i]), cap, rds[i + 1..]);
      assert msgs + ([m] + after.msgs) == msgs + [m] + after.msgs;
    case _ =>
  }

  /** `hev_socks5_udp_recvmmsg_tcp`. */
  method ReceiveMessages(stream: Stream, bufs: seq<array<Byte>>, cap: nat, rds: seq<Reads>)
    returns (r: int, lens: seq<(nat, nat)>)
    requires cap >= MAX_ADDR && |bufs| == |rds| && BatchPossible(stream.bytes, cap, rds)
    requires forall i :: 0 <= i < |bufs| ==> bufs[i].Length == cap
    requires forall i, j :: 0 <= i < j < |bufs| ==> bufs[i] != bufs[j]
    modifies stream, set b | b in bufs
    ensures var b := ReceiveBatch(old(stream.bytes), cap, rds);
      && r == BatchResult(b) && stream.bytes == b.rest && |lens| == |b.msgs| <= |bufs|
      && forall i :: 0 <= i < |lens| ==> Holds(bufs[i], lens[i], b.msgs[i])
  {
    hide Receive, Possible, BatchPossible, ReceiveBatch, Left;
    ghost var all := ReceiveBatch(stream.bytes, cap, rds);
    ghost var msgs: seq<Message> := [];
    lens := [];
    assert rds[0..] == rds && [] + all.msgs == all.msgs;
    var i := 0;
    while i < |bufs|
      invariant 0 <= i <= |bufs| && |lens| == |msgs| == i
      invariant BatchPossible(stream.bytes, cap, rds[i..]) && all == Continued(msgs, stream.bytes, cap, rds[i..])
      invariant forall j :: 0 <= j < i ==> Holds(bufs[j], lens[j], msgs[j])
    {
      BatchStep(msgs, stream.bytes, cap, rds, i);
      ghost var x := Receive(stream.bytes, cap, rds[i]);
      var end, res, addrlen, datlen := ReceiveOne(stream, bufs[i], rds[i]);
      if end == NoHead {
        r := if i > 0 then i else res;
        return;
      }
      if end != Received {
        r := res;
        return;
      }
      msgs, lens, i := msgs + [x.m], lens + [(addrlen, datlen)], i + 1;
    }
    BatchOver(msgs, stream.bytes, cap, rds);
    r := i;
  }

  lemma {:induction false} BatchOver(msgs: seq<Message>, s: Bytes, cap: nat, rds: seq<Reads>)
    requires cap >= MAX_ADDR
    ensures Continued(msgs, s, cap, rds[|rds|..]) == Batch(msgs, s, Full)
  {
    assert msgs + [] == msgs;
  }

  // ---------- streams of frames ----------

  /** Whatever the reads return, a batch over the frames of fitting messages takes a prefix
      of them; and if no waited read fails, what is left are the frames of the others. */
  lemma {:induction false} BatchTakesPrefix(ms: seq<Message>, cap: nat, rds: seq<Reads>)
    requires cap >= MAX_ADDR && AllFit(ms, cap)
    ensures var b := ReceiveBatch(Frames(ms), cap, rds);
      var k := |b.msgs|;
      && k <= |ms| && b.msgs == ms[..k] && b.stop != Refused
      && (b.stop == Full ==> k == |rds| && b.rest == Frames(ms[k..]))
      && (b.stop.Dry? ==> k < |rds| && (k == |ms| || !HeadRead(rds[k])))
      && (b.stop.Dry? && Steady(rds[k]) ==> b.rest == Frames(ms[k..]))
      && (b.stop.Broken? ==> k < |rds| && !Steady(rds[k]))
    decreases |rds|
  {
    hide ReceiveBatch, Receive, Frame, Fits;
    if rds != [] && ms != [] && HeadRead(rds[0]) && rds[0].body.All? {
      var m, rest := ms[0], Frames(ms[1..]);
      BatchGot(m, rest, cap, rds);
      BatchTakesPrefix(ms[1..], cap, rds[1..]);
      var b := ReceiveBatch(rest, cap, rds[1..]);
      assert [m] + ms[1..][..|b.msgs|] == ms[..|b.msgs| + 1];
      assert ms[1..][|b.msgs|..] == ms[|b.msgs| + 1..];
    } else {
      assert ms[..0] == [] && ms[0..] == ms;
      BatchStops(ms, cap, rds);
    }
  }

  lemma {:induction false} SteadyPrefix(ms: seq<Message>, cap: nat, rds: seq<Reads>)
    requires cap >= MAX_ADDR && AllFit(ms, cap) && forall i :: 0 <= i < |rds| ==> Steady(rds[i])
    ensures var b := ReceiveBatch(Frames(ms), cap, rds);
      var k := |b.msgs|;
      && k <= |ms| && b.msgs == ms[..k] && b.rest == Frames(ms[k..])
      && (rds != [] && rds[0].first > 0 && ms != [] ==> k > 0)
  {
    hide ReceiveBatch, Frames, Fits;
    BatchTakesPrefix(ms, cap, rds);
  }

  /** Fitting frames, and first reads that find them: every slot is filled, in order, and the
      result is the number of slots. */
  lemma {:induction false} FramesResult(ms: seq<Message>, cap: nat, rds: seq<Reads>)
    requires cap >= MAX_ADDR && AllFit(ms, cap) && |rds| <= |ms|
    requires forall i :: 0 <= i < |rds| ==> Steady(rds[i]) && rds[i].first > 0
    ensures var b := ReceiveBatch(Frames(ms), cap, rds); b.msgs == ms[..|rds|] && BatchResult(b) == |rds|
  {
    hide ReceiveBatch, Frames, Fits;
    BatchTakesPrefix(ms, cap, rds);
  }

  /** Behind fitting frames, a header that claims less than an address or more than the buffer
      holds makes the result -1, whatever was received before it; no other header does. */
  lemma {:induction false} RefusedIff(ms: seq<Message>, t: Bytes, cap: nat, rds: seq<Reads>)
    requires cap >= MAX_ADDR && AllFit(ms, cap) && |rds| == |ms| + 1 && |t| >= 5
    requires BatchPossible(Frames(ms) + t, cap, rds)
    requires forall i :: 0 <= i < |rds| ==> Steady(rds[i]) && rds[i].first > 0
    ensures var b := ReceiveBatch(Frames(ms) + t, cap, rds);
      && ms <= b.msgs && (b.stop.Full? || b.stop.Refused?)
      && (BatchResult(b) == -1 <==> t[2] < 5 || DatLen(t) > cap - (t[2] - 3))
    decreases |ms|
  {
    hide Frame, Fits, Receive, Left, Possible, ReceiveBatch, DatLen;
    if ms == [] {
      assert Frames(ms) + t == t;
      RefusedNow(t, cap, rds);
    } else {
      var m, rest := ms[0], Frames(ms[1..]) + t;
      assert Frames(ms) + t == Frame(m) + rest;
      FrameGot(m, rest, cap, rds[0]);
      BatchGot(m, rest, cap, rds);
      RefusedIff(ms[1..], t, cap, rds[1..]);
      var b := ReceiveBatch(rest, cap, rds[1..]);
      assert ms == [m] + ms[1..];
      Counted(m, b);
    }
  }

  lemma {:induction false} RefusedNow(t: Bytes, cap: nat, rds: seq<Reads>)
    requires cap >= MAX_ADDR && |rds| == 1 && |t| >= 5 && BatchPossible(t, cap, rds)
    requires Steady(rds[0]) && rds[0].first > 0
    ensures var b := ReceiveBatch(t, cap, rds);
      && (b.stop.Full? || b.stop.Refused?)
      && (BatchResult(b) == -1 <==> t[2] < 5 || DatLen(t) > cap - (t[2] - 3))
  {
    hide DatLen;
    assert rds[1..] == [];
  }

  /** One message more does not make a failure of a batch, nor hide one. */
  lemma {:induction false} Counted(m: Message, b: Batch)
    requires b.stop.Full? || b.stop.Refused?
    ensures BatchResult(b.(msgs := [m] + b.msgs)) == -1 <==> BatchResult(b) == -1
  {
  }

  /** A batch whose first reads succeed on the frame of a fitting message. */
  lemma {:induction false} BatchGot(m: Message, rest: Bytes, cap: nat, rds: seq<Reads>)
    requires cap >= MAX_ADDR && WholeAddr(m.addr) && Fits(m, cap) && rds != [] && HeadRead(rds[0]) && rds[0].body.All?
    ensures var b := ReceiveBatch(rest, cap, rds[1..]);
      ReceiveBatch(Frame(m) + rest, cap, rds) == b.(msgs := [m] + b.msgs)
  {
    FrameGot(m, rest, cap, rds[0]);
    hide Receive, Fits, Left, Frame;
  }

  lemma {:induction false} FrameGot(m: Message, rest: Bytes, cap: nat, r: Reads)
    requires cap >= MAX_ADDR && WholeAddr(m.addr) && Fits(m, cap) && HeadRead(r) && r.body.All?
    ensures Receive(Frame(m) + rest, cap, r) == Got(m) && Left(Frame(m) + rest, cap, r) == rest
  {
    hide Frame;
    RoundTripIff(m, rest, cap, r.(more := All));
    FrameFields(m, rest);
    FrameBehind(m, rest);
  }

  lemma {:induction false} FrameBehind(m: Message, rest: Bytes)
    ensures |Frame(m)| == 3 + |m.addr| + |m.data| && (Frame(m) + rest)[|Frame(m)|..] == rest
  {
  }

  /** A batch with no slot, or whose first reads fail or find nothing. */
  lemma {:induction false} BatchStops(ms: seq<Message>, cap: nat, rds: seq<Reads>)
    requires cap >= MAX_ADDR && AllFit(ms, cap)
    requires rds == [] || ms == [] || !HeadRead(rds[0]) || rds[0].body.Short?
    ensures var b := ReceiveBatch(Frames(ms), cap, rds);
      && b.msgs == [] && b.stop != Refused && (b.stop == Full ==> rds == [] && b.rest == Frames(ms))
      && (b.stop.Dry? ==> rds != [] && (ms == [] || !HeadRead(rds[0])))
      && (b.stop.Dry? && Steady(rds[0]) ==> b.rest == Frames(ms))
      && (b.stop.Broken? ==> rds != [] && !Steady(rds[0]))
  {
    if rds != [] && ms != [] && HeadRead(rds[0]) {
      FrameGot(ms[0], Frames(ms[1..]), cap, rds[0].(body := All));
    }
  }

  /** On such a stream every waited read can get all its bytes. */
  lemma {:induction false} FramesPossible(ms: seq<Message>, cap: nat, rds: seq<Reads>)
    requires cap >= MAX_ADDR && AllFit(ms, cap)
    requires forall i :: 0 <= i < |rds| ==> Steady(rds[i]) && rds[i].first <= 5 && (rds[i].first > 0 ==> i < |ms|)
    ensures BatchPossible(Frames(ms), cap, rds)
    decreases |rds|
  {
    if rds != [] && rds[0].first > 0 {
      var m, rest := ms[0], Frames(ms[1..]);
      FrameGot(m, rest, cap, rds[0]);
      FramePossible(m, rest, cap, rds[0]);
      hide Frame, Possible, Receive, Left;
      FramesPossible(ms[1..], cap, rds[1..]);
    }
  }

  lemma {:induction false} FramePossible(m: Message, rest: Bytes, cap: nat, r: Reads)
    requires cap >= MAX_ADDR && WholeAddr(m.addr) && Fits(m, cap) && Steady(r) && 0 < r.first <= 5
    ensures Possible(Frame(m) + rest, cap, r)
  {
    hide Frame;
    FrameFields(m, rest);
  }

  /** Successive batches. */
  function ReceiveRounds(s: Bytes, cap: nat, rounds: seq<seq<Reads>>): (r: (seq<Message>, Bytes))
    requires cap >= MAX_ADDR
    decreases |rounds|
  {
    if rounds == [] then ([], s)
    else
      var b := ReceiveBatch(s, cap, rounds[0]);
      var r := ReceiveRounds(b.rest, cap, rounds[1..]);
      (b.msgs + r.0, r.1)
  }

  predicate AllSteady(rounds: seq<seq<Reads>>) {
    forall i, j :: 0 <= i < |rounds| && 0 <= j < |rounds[i]| ==> Steady(rounds[i][j])
  }

  /** However the stream is cut up and however many slots each call has, what is received
      is exactly a prefix of what was sent, and the rest is still to come. */
  lemma {:induction false} FramingRoundTrip(ms: seq<Message>, cap: nat, rounds: seq<seq<Reads>>)
    requires cap >= MAX_ADDR && AllFit(ms, cap) && AllSteady(rounds)
    ensures var r := ReceiveRounds(Frames(ms), cap, rounds);
      |r.0| <= |ms| && r.0 == ms[..|r.0|] && r.1 == Frames(ms[|r.0|..])
  {
    hide ReceiveBatch, Frames, Fits, Steady;
    if rounds == [] {
      assert ms[..0] == [] && ms[0..] == ms;
    } else {
      SteadyPrefix(ms, cap, rounds[0]);
      var k := |ReceiveBatch(Frames(ms), cap, rounds[0]).msgs|;
      FramingRoundTrip(ms[k..], cap, rounds[1..]);
      var n := |ReceiveRounds(Frames(ms[k..]), cap, rounds[1..]).0|;
      assert ms[..k] + ms[k..][..n] == ms[..k + n] && ms[k..][n..] == ms[k + n..];
    }
  }

  /** Every message arrives once the slots whose first read succeeds suffice. */
  lemma {:induction false} AllArrive(ms: seq<Message>, cap: nat, rounds: seq<seq<Reads>>)
    requires cap >= MAX_ADDR && AllFit(ms, cap) && AllSteady(rounds)
    requires forall i :: 0 <= i < |rounds| ==> rounds[i] != [] && rounds[i][0].first > 0
    ensures |rounds| >= |ms| ==> ReceiveRounds(Frames(ms), cap, rounds) == (ms, [])
    decreases |rounds|
  {
    hide ReceiveBatch, Fits;
    if |rounds| >= |ms| {
      if rounds == [] {
        assert ms == [];
      } else {
        SteadyPrefix(ms, cap, rounds[0]);
        var k := |ReceiveBatch(Frames(ms), cap, rounds[0]).msgs|;
        AllArrive(ms[k..], cap, rounds[1..]);
        assert ms[..k] + ms[k..] == ms;
      }
    }
  }
}
