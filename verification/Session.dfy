/** `HevSocks5SessionTCP`: the atomic sections of hev-socks5-session-tcp.c on the
    session's own fields, each proved to be a step of `Relay`. */
module Session {
  import opened Ring
  import opened Relay

  class Session {
    var pcb: bool
    var eof: bool
    /** The chain of packet buffers from lwIP. */
    var queue: Chain
    const buffer: RingBuffer
    var resF: int
    var resB: int
    var pc: Pc
    /** lwIP's side of the connection. */
    var net: Lwip
    ghost var log: Log

    ghost predicate Valid()
      reads this, buffer
    {
      buffer.Valid()
    }

    ghost function Abs(): State
      reads this, buffer, buffer.data
      requires Valid()
    {
      State(pc, resF, resB, pcb, eof, queue, buffer.InFlight(), buffer.Readable(), buffer.max, net, log)
    }

    constructor (max: nat)
      ensures Valid() && Abs() == Initial(max) && fresh(buffer) && fresh(buffer.data)
    {
      pcb, eof, queue, resF, resB, pc := true, false, [], 1, 1, Before;
      buffer := new RingBuffer(max);
      net, log := Lwip(TCP_WND, [], 0), Log([], 0, [], 0, [], [], false, false, false);
    }

    /** `tcp_splice_f` up to the mutex. */
    method SpliceF(w: Outcome)
      requires Valid() && Enabled(Abs(), WriteOut(w))
      modifies this
      ensures Valid() && Abs() == Step(old(Abs()), WriteOut(w))
    {
      var res, iovc, p, offered := 1, 0, queue, [];
      if queue != [] {
        while p != [] && iovc < IOV_MAX
          invariant iovc + |p| == |queue| && iovc <= IOV_MAX && p == queue[iovc..] && offered == queue[..iovc]
          decreases |p|
        {
          offered := offered + [p[0]];
          p, iovc := p[1..], iovc + 1;
        }
        assert offered == if |queue| <= IOV_MAX then queue else queue[..IOV_MAX];
      } else if eof {
        res := -1;
      } else {
        res := 0;
      }
      if iovc > 0 {
        if !w.Moved? || w.n == 0 {
          res := if w.Again? then 0 else -1;
          resF, pc := res, AtB;
        } else {
          log := log.(written := log.written + Flat(offered)[..w.n]);
          pc := LockF(w.n);
        }
      } else {
        if res < 0 {
          log := log.(shutWr := true);
        }
        resF, pc := res, AtB;
      }
    }

    /** `tcp_splice_f` with the mutex held. */
    method SpliceFLocked()
      requires Valid() && Enabled(Abs(), TakeOff)
      modifies this
      ensures Valid() && Abs() == Step(old(Abs()), TakeOff)
    {
      hide FreeHeader, TcpRecved, U16, Flat, Offered, Cells, Around;
      var s := pc.n;
      queue := PbufFreeHeader(queue, U16(s));
      log := log.(taken := log.taken + s);
      if pcb {
        net := TcpRecved(net, U16(s));
        log := log.(credit := log.credit + U16(s));
      }
      resF, pc := 1, AtB;
    }

    /** `tcp_splice_b` up to the mutex. */
    method SpliceB(r: Outcome, bytes: Bytes)
      requires Valid() && Enabled(Abs(), ReadIn(r, bytes))
      modifies this, buffer, buffer.data
      ensures Valid() && Abs() == Step(old(Abs()), ReadIn(r, bytes))
    {
      var res := 1;
      var iov := buffer.Writing();
      if iov != [] {
        if !r.Moved? || r.n == 0 {
          res := if r.Again? then 0 else -1;
        } else {
          buffer.Store(iov, bytes);
          buffer.WriteFinish(r.n);
          log := log.(readIn := log.readIn + bytes);
        }
      } else {
        res := 0;
      }
      pc := LockB(res);
    }

    /** Hands all readable bytes to lwIP, region by region. */
    method HandOver(iov: seq<Region>, fails0: bool, fails1: bool) returns (err: bool, ghost cut: nat)
      requires Valid() && iov != [] && Covers(buffer.max, iov, buffer.rp, buffer.rda)
      modifies this`net, buffer
      ensures Valid() && buffer.InFlight() == old(buffer.InFlight()) + old(buffer.Readable()) && buffer.Readable() == []
      ensures var rd := old(buffer.Readable());
        && 0 < cut <= |rd|
        && var net1 := TcpWrite(old(net), rd[..cut], fails0);
        && var f1 := fails1 && cut < |rd|;
        && net == TcpWrite(net1, rd[cut..], f1)
        && err == (!TcpWriteOk(old(net), rd[..cut], fails0) || !TcpWriteOk(net1, rd[cut..], f1))
    {
      ghost var rd, net0 := buffer.Readable(), net;
      GatherCovers(buffer.data[..], iov, buffer.rp, buffer.rda);
      Regions(buffer.data[..], iov, buffer.rp, buffer.rda);
      hide SndBuf, U16, Gather, Covers;
      cut := iov[0].len;
      var s, ptr := iov[0].len, buffer.data[iov[0].base..iov[0].base + iov[0].len];
      assert ptr == rd[..cut];
      err := !TcpWriteOk(net, ptr, fails0);
      net := TcpWrite(net, ptr, fails0);
      if |iov| > 1 {
        ptr := buffer.data[iov[1].base..iov[1].base + iov[1].len];
        assert ptr == rd[cut..];
        err := err || !TcpWriteOk(net, ptr, fails1);
        net := TcpWrite(net, ptr, fails1);
        s := s + iov[1].len;
      } else {
        WriteNothing(net, rd[cut..]);
      }
      assert rd[..s] == rd && rd[s..] == [];
      buffer.ReadFinish(s);
    }

    /** Hands the readable bytes over, if there are any. */
    method HandReadable(fails0: bool, fails1: bool) returns (some: bool, err: bool, ghost cut: nat)
      requires Valid()
      modifies this`net, this`log, buffer
      ensures Valid() && buffer.InFlight() == old(buffer.InFlight()) + old(buffer.Readable()) && buffer.Readable() == []
      ensures var rd := old(buffer.Readable()); some == (rd != []) && cut <= |rd| && (some ==> cut > 0)
      ensures var rd := old(buffer.Readable());
        var net1 := TcpWrite(old(net), rd[..cut], fails0);
        var f1 := fails1 && cut < |rd|;
        && (!some ==> !err && net == old(net) && log == old(log))
        && (some ==> err == (!TcpWriteOk(old(net), rd[..cut], fails0) || !TcpWriteOk(net1, rd[cut..], f1)))
        && (some ==> net == TcpWrite(net1, rd[cut..], f1))
        && (some ==> log == old(log).(handed := old(log).handed + rd, refused := old(log).refused || err))
    {
      hide TcpWrite, TcpWriteOk, Gather, Flat, Offered, Cells, Around, InBounds, Covers;
      ghost var rd := buffer.Readable();
      some, err, cut := false, false, 0;
      var iov := buffer.Reading();
      if iov != [] {
        err, cut := HandOver(iov, fails0, fails1);
        some := true;
        log := log.(handed := log.handed + rd, refused := log.refused || err);
      }
    }

    /** `tcp_splice_b` with the mutex held. */
    method SpliceBLocked(fails0: bool, fails1: bool, outputFails: bool) returns (ghost cut: nat)
      requires Valid() && pc.LockB?
      modifies this, buffer
      ensures Valid()
      ensures cut <= |old(buffer.Readable())| && (old(buffer.Readable()) != [] ==> cut > 0)
      ensures var f1 := fails1 && cut < old(|buffer.Readable()|);
        Abs() == StepHandOn(old(Abs()), old(pc).res, cut, fails0, f1, outputFails)
    {
      hide TcpWrite, TcpWriteOk, Gather, Flat, Offered, Cells, Around, InBounds, Covers, StepHandOn;
      var res, err := pc.res, false;
      ghost var rd := buffer.Readable();
      ghost var s := Abs();
      cut := |rd|;
      if pcb {
        var some;
        some, err, cut := HandReadable(fails0, fails1);
        if some {
          err := err || outputFails;
          res := 1;
        } else if res < 0 {
          log := log.(shutPcb := true);
        }
      }
      if !pcb || err {
        res := -1;
      }
      resB, pc := res, Loop;
      HandOnCases(s, s.pc.res, cut, fails0, fails1 && cut < |rd|, outputFails);
    }

    /** `tcp_recv_handler`. */
    method RecvHandler(p: Chain)
      requires Valid() && Enabled(Abs(), if p == [] then RecvEof else Recv(p))
      modifies this
      ensures Valid() && Abs() == Step(old(Abs()), if p == [] then RecvEof else Recv(p))
    {
      if p != [] {
        if queue != [] {
          if U16(|Flat(queue)|) > TCP_WND {
            return;
          }
        }
        queue := queue + p;
        net := net.(rcvWnd := net.rcvWnd - |Flat(p)|);
        log := log.(received := log.received + Flat(p));
      } else {
        eof := true;
      }
    }

    /** `tcp_sent_handler`. */
    method SentHandler(len: nat)
      requires Valid() && Enabled(Abs(), Sent(len)) && len <= buffer.use - buffer.rda
      modifies this, buffer
      ensures Valid() && Abs() == Step(old(Abs()), Sent(len))
    {
      buffer.ReadRelease(len);
      net := net.(acked := net.acked + len);
    }

    /** One pass of the loop after both splice calls, and of the loop that drains the ring. */
    method Turn(timeout: bool)
      requires Valid() && (pc == Loop || pc == Drain)
      modifies this
      ensures Valid()
      ensures Abs() == Step(old(Abs()), if old(pc) == Loop then Decide(timeout) else DrainCheck(timeout))
    {
      if pc == Loop {
        if resF > 0 || resB > 0 {
          pc := if timeout then Drain else AtF;
        } else if resF == 0 || resB == 0 {
          pc := if timeout then Drain else AtF;
        } else {
          pc := Drain;
        }
      } else {
        if !pcb {
          pc := Ended(false);
        } else if buffer.use == 0 {
          pc := Ended(true);
        } else {
          pc := if timeout then Ended(false) else Drain;
        }
      }
    }
  }

  /** The two regions of the readable bytes. */
  lemma {:induction false} Regions(d: Bytes, iov: seq<Region>, s: nat, n: nat)
    requires Covers(|d|, iov, s, n) && n > 0
    ensures 0 < iov[0].len <= n
    ensures |iov| == 1 ==> iov[0].len == n
    ensures |iov| != 1 ==> |iov| == 2 && iov[0].len + iov[1].len == n && iov[0].len < n
    ensures InBounds(|d|, iov)
    ensures var rd := Gather(d, iov);
      && |rd| == n
      && d[iov[0].base..iov[0].base + iov[0].len] == rd[..iov[0].len]
      && (|iov| == 2 ==> d[iov[1].base..iov[1].base + iov[1].len] == rd[iov[0].len..])
  {
    GatherCovers(d, iov, s, n);
    if |iov| == 2 {
      assert iov[1..] == [iov[1]] && iov[1..][1..] == [];
      assert Gather(d, iov[1..]) == d[iov[1].base..iov[1].base + iov[1].len];
    }
  }

  lemma {:induction false} WriteNothing(net: Lwip, none: Bytes)
    requires none == []
    ensures TcpWriteOk(net, none, false) && TcpWrite(net, none, false) == net
  {
    assert net.accepted + [] == net.accepted;
  }

  /** `pbuf_free_header`: drops whole buffers, then the front of the next one. */
  method PbufFreeHeader(q: Chain, size: nat) returns (p: Chain)
    ensures p == FreeHeader(q, size)
  {
    p := q;
    var left: nat := size;
    while left > 0 && p != []
      invariant FreeHeader(q, size) == FreeHeader(p, left)
      decreases left, |p|
    {
      if left >= |p[0]| {
        left := left - |p[0]|;
        p := p[1..];
      } else {
        p := [p[0][left..]] + p[1..];
        left := 0;
      }
    }
  }

  /** What handing on does when the connection is gone, with bytes, and without. */
  lemma {:induction false} HandOnCases(s: State, res: int, cut: nat, fails0: bool, fails1: bool, outputFails: bool)
    requires cut <= |s.readable|
    ensures var t := StepHandOn(s, res, cut, fails0, fails1, outputFails);
      && (!s.pcb ==> t == s.(pc := Loop, resB := -1))
      && (s.pcb && s.readable == [] ==>
            t == s.(pc := Loop, resB := res, log := s.log.(shutPcb := s.log.shutPcb || res < 0)))
      && (s.pcb && s.readable != [] ==>
            var net1 := TcpWrite(s.net, s.readable[..cut], fails0);
            var bad := !TcpWriteOk(s.net, s.readable[..cut], fails0) || !TcpWriteOk(net1, s.readable[cut..], fails1);
            t == s.(pc := Loop, resB := if bad || outputFails then -1 else 1,
                    net := TcpWrite(net1, s.readable[cut..], fails1),
                    inFlight := s.inFlight + s.readable, readable := [],
                    log := s.log.(handed := s.log.handed + s.readable, refused := s.log.refused || bad)))
  {
    hide TcpWrite, TcpWriteOk;
  }
}
