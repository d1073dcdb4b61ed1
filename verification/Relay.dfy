/** The TCP relay of hev-socks5-session-tcp.c as a state machine. The session task runs
    in atomic sections: a splice call ends one section when it waits for the mutex and
    starts another when it has it. lwIP's callbacks, and the failure of the connection,
    can come between any two sections. */
module Relay {
  import opened Ring

  /** lwIP's receive window and send buffer, in bytes (`TCP_WND`, `TCP_SND_BUF`). */
  const TCP_WND: nat := 65528
  const TCP_SND_BUF: nat := 65528

  /** At most this many buffers go into one `writev`. */
  const IOV_MAX: nat := 64

  /** A length passed to lwIP as `u16_t`. */
  function U16(n: nat): nat {
    n % 0x1_0000
  }

  // ---------- chains of packet buffers ----------

  type Chain = seq<Bytes>

  function Flat(q: Chain): Bytes {
    if q == [] then [] else q[0] + Flat(q[1..])
  }

  /** The buffers that one `writev` offers. */
  function Offered(q: Chain): Bytes {
    Flat(if |q| <= IOV_MAX then q else q[..IOV_MAX])
  }

  /** `pbuf_free_header`. */
  function FreeHeader(q: Chain, n: nat): Chain {
    if n == 0 || q == [] then q
    else if n >= |q[0]| then FreeHeader(q[1..], n - |q[0]|)
    else [q[0][n..]] + q[1..]
  }

  lemma {:induction false} Grouped(a: Bytes, b: Bytes, c: Bytes)
    ensures a + (b + c) == a + b + c
  {
  }

  lemma {:induction false} FlatAppend(a: Chain, b: Chain)
    ensures Flat(a + b) == Flat(a) + Flat(b)
  {
    if a == [] {
      assert a + b == b;
    } else {
      FlatAppend(a[1..], b);
      assert (a + b)[1..] == a[1..] + b;
      Grouped(a[0], Flat(a[1..]), Flat(b));
    }
  }

  lemma {:induction false} FreeHeaderFlat(q: Chain, n: nat)
    requires n <= |Flat(q)|
    ensures Flat(FreeHeader(q, n)) == Flat(q)[n..]
  {
    if n > 0 && q != [] {
      if n >= |q[0]| {
        FreeHeaderFlat(q[1..], n - |q[0]|);
      } else {
        assert ([q[0][n..]] + q[1..])[1..] == q[1..];
      }
    }
  }

  /** What is offered is the front of the queue. */
  lemma {:induction false} OfferedPrefix(q: Chain)
    ensures Offered(q) <= Flat(q)
  {
    if |q| > IOV_MAX {
      assert q == q[..IOV_MAX] + q[IOV_MAX..];
      FlatAppend(q[..IOV_MAX], q[IOV_MAX..]);
    }
  }

  // ---------- the state ----------

  /** Where the session task is. */
  datatype Pc =
    | Before
    | AtF
    /** `n` bytes are written to the socket; waiting for the mutex to take them off the queue. */
    | LockF(n: nat)
    | AtB
    /** The socket was read with result `res`; waiting for the mutex to hand bytes on. */
    | LockB(res: int)
    | Loop
    | Drain
    /** `done`: left the drain loop because nothing is in the ring any more. */
    | Ended(done: bool)

  /** lwIP's side of the connection. */
  datatype Lwip = Lwip(rcvWnd: nat, accepted: Bytes, acked: nat)

  /** What happened so far. */
  datatype Log = Log(received: Bytes, taken: nat, written: Bytes, credit: nat, readIn: Bytes, handed: Bytes,
                     refused: bool, shutWr: bool, shutPcb: bool)

  datatype State = State(pc: Pc, resF: int, resB: int, pcb: bool, eof: bool, queue: Chain,
                         inFlight: Bytes, readable: Bytes, max: nat, net: Lwip, log: Log)

  function Initial(max: nat): State {
    State(Before, 1, 1, true, false, [], [], [], max, Lwip(TCP_WND, [], 0),
          Log([], 0, [], 0, [], [], false, false, false))
  }

  // ---------- lwIP calls ----------

  function TcpRecved(net: Lwip, len: nat): Lwip {
    net.(rcvWnd := if net.rcvWnd + len > TCP_WND then TCP_WND else net.rcvWnd + len)
  }

  /** Free space in the send buffer. */
  function SndBuf(net: Lwip): int {
    TCP_SND_BUF - (|net.accepted| - net.acked)
  }

  /** `tcp_write` without copying; it may also fail for reasons of its own. */
  function TcpWriteOk(net: Lwip, bytes: Bytes, fails: bool): bool {
    !fails && (U16(|bytes|) == 0 || U16(|bytes|) <= SndBuf(net))
  }

  function TcpWrite(net: Lwip, bytes: Bytes, fails: bool): Lwip {
    if TcpWriteOk(net, bytes, fails) then
      WrapLess(|bytes|);
      net.(accepted := net.accepted + bytes[..U16(|bytes|)])
    else net
  }

  lemma {:induction false} WrapLess(n: nat)
    ensures U16(n) <= n
    ensures n < 0x1_0000 ==> U16(n) == n
  {
  }

  // ---------- steps ----------

  datatype Outcome = Moved(n: nat) | Again | Broken

  datatype Event =
    | Start
    | SkipF
    | WriteOut(w: Outcome)
    | TakeOff
    | SkipB
    | ReadIn(r: Outcome, bytes: Bytes)
    /** The readable bytes lie in two regions that meet at `cut`. */
    | HandOn(cut: nat, fails0: bool, fails1: bool, outputFails: bool)
    | Decide(timeout: bool)
    | DrainCheck(timeout: bool)
    | Recv(p: Chain)
    | RecvEof
    | Sent(len: nat)
    | Err

  /** What the scheduler, the socket and lwIP can do. */
  predicate Enabled(s: State, e: Event) {
    match e
    case Start => s.pc == Before
    case SkipF => s.pc == AtF && s.resF < 0
    case WriteOut(w) => s.pc == AtF && s.resF >= 0 && (w.Moved? ==> w.n <= |Offered(s.queue)|)
    case TakeOff => s.pc.LockF?
    case SkipB => s.pc == AtB && s.resB < 0
    case ReadIn(r, bytes) =>
      s.pc == AtB && s.resB >= 0 && (r.Moved? ==> r.n == |bytes| <= s.max - |s.inFlight| - |s.readable|)
    case HandOn(cut, _, fails1, _) =>
      s.pc.LockB? && cut <= |s.readable| && (s.readable != [] ==> cut > 0) && (cut == |s.readable| ==> !fails1)
    case Decide(_) => s.pc == Loop
    case DrainCheck(_) => s.pc == Drain
    case Recv(p) => s.pcb && !s.eof && p != [] && |Flat(p)| <= s.net.rcvWnd
    case RecvEof => s.pcb && !s.eof
    case Sent(len) => s.pcb && len <= |s.net.accepted| - s.net.acked
    case Err => s.pcb
  }

  /** First half of `tcp_splice_f`. */
  function StepWriteOut(s: State, w: Outcome): State
    requires w.Moved? ==> w.n <= |Offered(s.queue)|
  {
    if s.queue != [] then
      if w.Moved? && w.n > 0 then s.(pc := LockF(w.n),
        log := s.log.(written := s.log.written + Offered(s.queue)[..w.n]))
      else s.(pc := AtB, resF := if w.Again? then 0 else -1)
    else if s.eof then s.(pc := AtB, resF := -1, log := s.log.(shutWr := true))
    else s.(pc := AtB, resF := 0)
  }

  /** Second half: `n` bytes leave the queue and lwIP may receive as many again. */
  function StepTakeOff(s: State, n: nat): State {
    s.(pc := AtB, resF := 1, queue := FreeHeader(s.queue, U16(n)),
       net := if s.pcb then TcpRecved(s.net, U16(n)) else s.net,
       log := s.log.(taken := s.log.taken + n, credit := if s.pcb then s.log.credit + U16(n) else s.log.credit))
  }

  /** First half of `tcp_splice_b`. */
  function StepReadIn(s: State, r: Outcome, bytes: Bytes): State {
    if |s.inFlight| + |s.readable| == s.max then s.(pc := LockB(0))
    else if r.Moved? && r.n > 0 then
      s.(pc := LockB(1), readable := s.readable + bytes, log := s.log.(readIn := s.log.readIn + bytes))
    else s.(pc := LockB(if r.Again? then 0 else -1))
  }

  /** Second half: all readable bytes are handed to lwIP. */
  function StepHandOn(s: State, res: int, cut: nat, fails0: bool, fails1: bool, outputFails: bool): State
    requires cut <= |s.readable|
  {
    if !s.pcb then s.(pc := Loop, resB := -1)
    else if s.readable != [] then
      var a, b := s.readable[..cut], s.readable[cut..];
      var net1 := TcpWrite(s.net, a, fails0);
      var net2 := TcpWrite(net1, b, fails1);
      var bad := !TcpWriteOk(s.net, a, fails0) || !TcpWriteOk(net1, b, fails1);
      s.(pc := Loop, resB := if bad || outputFails then -1 else 1, net := net2,
         inFlight := s.inFlight + s.readable, readable := [],
         log := s.log.(handed := s.log.handed + s.readable, refused := s.log.refused || bad))
    else if res < 0 then s.(pc := Loop, resB := res, log := s.log.(shutPcb := true))
    else s.(pc := Loop, resB := res)
  }

  function StepRecv(s: State, p: Chain): State {
    if s.queue != [] && U16(|Flat(s.queue)|) > TCP_WND then s
    else
      s.(queue := s.queue + p,
         net := s.net.(rcvWnd := if |Flat(p)| <= s.net.rcvWnd then s.net.rcvWnd - |Flat(p)| else 0),
         log := s.log.(received := s.log.received + Flat(p)))
  }

  function StepSent(s: State, len: nat): State {
    s.(inFlight := if len <= |s.inFlight| then s.inFlight[len..] else [], net := s.net.(acked := s.net.acked + len))
  }

  function Step(s: State, e: Event): State
    requires Enabled(s, e)
  {
    match e
    case Start => s.(pc := if s.pcb then AtF else Ended(false))
    case SkipF => s.(pc := AtB)
    case WriteOut(w) => StepWriteOut(s, w)
    case TakeOff => StepTakeOff(s, s.pc.n)
    case SkipB => s.(pc := Loop)
    case ReadIn(r, bytes) => StepReadIn(s, r, bytes)
    case HandOn(cut, fails0, fails1, outputFails) => StepHandOn(s, s.pc.res, cut, fails0, fails1, outputFails)
    case Decide(timeout) =>
      if s.resF > 0 || s.resB > 0 || s.resF == 0 || s.resB == 0 then s.(pc := if timeout then Drain else AtF)
      else s.(pc := Drain)
    case DrainCheck(timeout) =>
      if !s.pcb then s.(pc := Ended(false))
      else if |s.inFlight| + |s.readable| == 0 then s.(pc := Ended(true))
      else s.(pc := if timeout then Ended(false) else Drain)
    case Recv(p) => StepRecv(s, p)
    case RecvEof => s.(eof := true)
    case Sent(len) => StepSent(s, len)
    case Err => s.(pcb := false)
  }

  ghost predicate Possible(s: State, es: seq<Event>)
    decreases |es|
  {
    es == [] || (Enabled(s, es[0]) && Possible(Step(s, es[0]), es[1..]))
  }

  ghost function Run(s: State, es: seq<Event>): State
    requires Possible(s, es)
    decreases |es|
  {
    if es == [] then s else Run(Step(s, es[0]), es[1..])
  }

  // ---------- what every interleaving keeps ----------

  /** Bytes written to the socket that are still on the queue. */
  function Pending(s: State): nat {
    if s.pc.LockF? then s.pc.n else 0
  }

  /** From lwIP to the socket. */
  ghost predicate ForwardInv(s: State) {
    var l := s.log;
    && l.taken <= |l.received| && l.received[l.taken..] == Flat(s.queue)
    && Pending(s) <= |Flat(s.queue)| && l.written == l.received[..l.taken + Pending(s)]
    && l.credit <= l.taken && (s.pcb ==> l.credit == l.taken && s.net.rcvWnd + |Flat(s.queue)| == TCP_WND)
    && |Flat(s.queue)| <= TCP_WND
    && (l.shutWr ==> s.eof && s.queue == [] && s.resF == -1 && !s.pc.LockF?)
  }

  /** From the socket to lwIP. */
  ghost predicate BackwardInv(s: State) {
    var l := s.log;
    && l.readIn == l.handed + s.readable
    && s.net.acked <= |s.net.accepted| <= |l.handed| && s.inFlight == l.handed[s.net.acked..]
    && (!l.refused ==> s.net.accepted == l.handed)
    && |s.inFlight| + |s.readable| <= s.max <= TCP_SND_BUF
    && (l.refused ==> s.resB < 0 && !s.pc.LockB?)
    && (l.shutPcb ==> s.readable == [] && s.resB < 0 && !s.pc.LockB?)
    && (s.pc.LockB? ==> s.resB >= 0)
    && (s.pc == Ended(true) ==> s.inFlight == [] && s.readable == [])
  }

  ghost predicate Inv(s: State) {
    ForwardInv(s) && BackwardInv(s)
  }

  /** In a state that can be reached no length is cut short, so every byte written is
      taken off the queue. */
  lemma {:induction false} TakeOffInv(s: State)
    requires Inv(s) && s.pc.LockF?
    ensures U16(s.pc.n) == s.pc.n && Inv(StepTakeOff(s, s.pc.n))
  {
    var n := s.pc.n;
    WrapLess(n);
    FreeHeaderFlat(s.queue, n);
    var t := StepTakeOff(s, n);
    assert t.log.received[t.log.taken..] == s.log.received[s.log.taken..][n..];
  }

  lemma {:induction false} WriteOutInv(s: State, w: Outcome)
    requires Inv(s) && Enabled(s, WriteOut(w))
    ensures Inv(StepWriteOut(s, w))
  {
    OfferedPrefix(s.queue);
    var l := s.log;
    if s.queue != [] && w.Moved? && w.n > 0 {
      assert l.received == l.received[..l.taken] + Flat(s.queue);
      assert Offered(s.queue)[..w.n] == Flat(s.queue)[..w.n];
      assert l.received[..l.taken + w.n] == l.received[..l.taken] + Flat(s.queue)[..w.n];
    }
  }

  /** lwIP always has room: neither its send buffer nor a length field is too small. */
  lemma {:induction false} HandOnFits(s: State, cut: nat, fails0: bool, fails1: bool)
    requires BackwardInv(s) && cut <= |s.readable| && !s.log.refused
    ensures var a, b := s.readable[..cut], s.readable[cut..];
      && (TcpWriteOk(s.net, a, fails0) <==> !fails0)
      && (!fails0 ==> TcpWrite(s.net, a, fails0).accepted == s.net.accepted + a)
      && (fails0 ==> TcpWrite(s.net, a, fails0) == s.net)
      && var net1 := TcpWrite(s.net, a, fails0);
      && (TcpWriteOk(net1, b, fails1) <==> !fails1)
      && (!fails1 ==> TcpWrite(net1, b, fails1).accepted == net1.accepted + b)
  {
    WrapLess(cut);
    WrapLess(|s.readable| - cut);
  }

  lemma {:induction false} HandOnInv(s: State, cut: nat, fails0: bool, fails1: bool, outputFails: bool)
    requires Inv(s) && Enabled(s, HandOn(cut, fails0, fails1, outputFails))
    ensures Inv(StepHandOn(s, s.pc.res, cut, fails0, fails1, outputFails))
  {
    hide Flat, Offered, U16;
    if s.pcb && s.readable != [] {
      var a, b := s.readable[..cut], s.readable[cut..];
      HandOnFits(s, cut, fails0, fails1);
      assert a + b == s.readable;
      assert s.net.accepted + a + b == s.net.accepted + s.readable;
      assert (s.log.handed + s.readable)[s.net.acked..] == s.log.handed[s.net.acked..] + s.readable;
    }
  }

  lemma {:induction false} ReadInInv(s: State, r: Outcome, bytes: Bytes)
    requires Inv(s) && Enabled(s, ReadIn(r, bytes))
    ensures Inv(StepReadIn(s, r, bytes))
  {
    assert s.log.handed + s.readable + bytes == s.log.handed + (s.readable + bytes);
  }

  /** Received data is never refused: lwIP stays within the window. */
  lemma {:induction false} RecvInv(s: State, p: Chain)
    requires Inv(s) && Enabled(s, Recv(p))
    ensures U16(|Flat(s.queue)|) <= TCP_WND && Inv(StepRecv(s, p))
  {
    WrapLess(|Flat(s.queue)|);
    FlatAppend(s.queue, p);
    var l, r := s.log, s.log.received + Flat(p);
    assert r[l.taken..] == l.received[l.taken..] + Flat(p);
    assert r[..l.taken + Pending(s)] == l.received[..l.taken + Pending(s)];
  }

  lemma {:induction false} SentInv(s: State, len: nat)
    requires Inv(s) && Enabled(s, Sent(len))
    ensures len <= |s.inFlight| && Inv(StepSent(s, len))
  {
    assert s.log.handed[s.net.acked + len..] == s.log.handed[s.net.acked..][len..];
  }

  lemma {:induction false} StepInv(s: State, e: Event)
    requires Inv(s) && Enabled(s, e)
    ensures Inv(Step(s, e))
  {
    hide Inv, Offered, Flat, StepWriteOut, StepTakeOff, StepReadIn, StepHandOn, StepRecv, StepSent;
    match e
    case WriteOut(w) => WriteOutInv(s, w);
    case TakeOff => TakeOffInv(s);
    case ReadIn(r, bytes) => ReadInInv(s, r, bytes);
    case HandOn(cut, fails0, fails1, outputFails) => HandOnInv(s, cut, fails0, fails1, outputFails);
    case Recv(p) => RecvInv(s, p);
    case Sent(len) => SentInv(s, len);
    case _ => ControlInv(s, e);
  }

  /** The steps that move no bytes. */
  lemma {:induction false} ControlInv(s: State, e: Event)
    requires Inv(s) && Enabled(s, e)
    requires e.Start? || e.SkipF? || e.SkipB? || e.Decide? || e.DrainCheck? || e.RecvEof? || e.Err?
    ensures Inv(Step(s, e))
  {
    hide Offered, Flat, StepWriteOut, StepTakeOff, StepReadIn, StepHandOn, StepRecv, StepSent;
  }

  lemma {:induction false} RunInv(s: State, es: seq<Event>)
    requires Inv(s) && Possible(s, es)
    ensures Inv(Run(s, es))
    decreases |es|
  {
    if es != [] {
      StepInv(s, es[0]);
      RunInv(Step(s, es[0]), es[1..]);
    }
  }

  // ---------- the promises of the relay, over every run ----------

  /** Nothing is lost, made up or reordered between lwIP and the socket, and lwIP is
      credited with exactly the bytes that were taken off. */
  lemma {:induction false} ForwardConserved(max: nat, es: seq<Event>)
    requires max <= TCP_SND_BUF && Possible(Initial(max), es)
    ensures var s := Run(Initial(max), es);
      && Pending(s) <= |Flat(s.queue)|
      && s.log.received == s.log.written + Flat(s.queue)[Pending(s)..]
      && (s.pcb ==> s.log.credit + Pending(s) == |s.log.written|)
      && (s.pcb ==> s.net.rcvWnd == TCP_WND - |Flat(s.queue)|)
  {
    RunInv(Initial(max), es);
    var s := Run(Initial(max), es);
    var l, n := s.log, Pending(s);
    assert l.received == l.received[..l.taken + n] + l.received[l.taken..][n..];
  }

  /** The same in the other direction; and as long as lwIP has not refused a write, the
      bytes it still has to send are the ring's bytes in flight, which `Ring` keeps
      unchanged. */
  lemma {:induction false} BackwardConserved(max: nat, es: seq<Event>)
    requires max <= TCP_SND_BUF && Possible(Initial(max), es)
    ensures var s := Run(Initial(max), es);
      && s.log.readIn == s.log.handed + s.readable
      && (!s.log.refused ==>
           s.net.accepted == s.log.handed && s.net.acked <= |s.net.accepted| &&
           s.net.accepted[s.net.acked..] == s.inFlight)
      && (s.log.refused ==> s.resB < 0)
  {
    RunInv(Initial(max), es);
  }

  /** The socket is shut down for writing only after everything lwIP delivered is written,
      and lwIP's side only after everything read from the socket is handed on. */
  lemma {:induction false} HalfClose(max: nat, es: seq<Event>)
    requires max <= TCP_SND_BUF && Possible(Initial(max), es)
    ensures var s := Run(Initial(max), es);
      && (s.log.shutWr ==> s.eof && s.queue == [] && s.log.written == s.log.received)
      && (s.log.shutPcb ==> s.readable == [] && s.log.handed == s.log.readIn)
  {
    RunInv(Initial(max), es);
  }

  /** A session that ends because its ring is empty has had every byte acknowledged,
      unless lwIP refused a write. */
  lemma {:induction false} EndedDelivered(max: nat, es: seq<Event>)
    requires max <= TCP_SND_BUF && Possible(Initial(max), es)
    ensures var s := Run(Initial(max), es);
      s.pc == Ended(true) && !s.log.refused ==> s.net.acked == |s.log.readIn| && s.net.accepted == s.log.readIn
  {
    RunInv(Initial(max), es);
    var s := Run(Initial(max), es);
    if s.pc == Ended(true) {
      assert s.log.handed + [] == s.log.handed;
      assert |s.inFlight| == |s.log.handed| - s.net.acked;
    }
  }
}
