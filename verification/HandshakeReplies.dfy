/** What the handshake means for its user: who is let in, and which answer each request
    gets, in the bytes that go over the wire. */
module HandshakeReplies {
  import opened Basics
  import opened KeyOrder
  import opened SocksAddr
  import opened Handshake
  import opened HandshakeOutcome

  /** A run that has come to its end. */
  ghost predicate Over(c: Client, s: Server, ps: seq<Peer>) {
    Possible(c, s, START, ps) && Stuck(c, s, Run(c, s, START, ps))
  }

  /** The first `n % 256` bytes, as many as the length octet says. */
  function Sent(s: Bytes): Bytes {
    s[..|s| % 256]
  }

  /** The database has this name with this password; neither may be empty. */
  predicate Registered(db: map<Name, Bytes>, user: Bytes, pass: Bytes) {
    user != [] && pass != [] && user in db && db[user] == pass
  }

  /** A server with a database lets in exactly the users of the database, each with its own
      password, and tells everyone else so. */
  lemma {:induction false} OnlyRegistered(c: Client, s: Server, ps: seq<Peer>)
    requires Over(c, s, ps) && s.auth.Some?
    ensures var f := Run(c, s, START, ps);
      && (c.user.None? || c.pass.None? ==> Refused(f, [5, 255]))
      && (c.user.Some? && c.pass.Some? ==>
            if Registered(s.auth.value, Sent(c.user.value), Sent(c.pass.value)) then [5, 2, 1, 0] <= f.sLog
            else Refused(f, [5, 2, 1, 255]))
      && (f.sp == SReturn(0) ==>
            && c.user.Some? && c.pass.Some?
            && Registered(s.auth.value, Sent(c.user.value), Sent(c.pass.value)))
  {
    Outcome(c, s, ps);
    hide Answer, Reply, Written;
    if HasCreds(c) {
      assert MethodReply(c, s) == [5, 2];
      assert Greeting(c, s) == [5, 2] + AuthReply(c, s);
    } else {
      assert Greeting(c, s) == [5, 255];
    }
  }

  /** A server without a database lets in exactly the clients that offer no credentials. */
  lemma {:induction false} OpenServer(c: Client, s: Server, ps: seq<Peer>)
    requires Over(c, s, ps) && s.auth.None?
    ensures var f := Run(c, s, START, ps);
      if c.user.Some? && c.pass.Some? then Refused(f, [5, 255]) else [5, 0] <= f.sLog
  {
    Outcome(c, s, ps);
    hide Answer, Reply, Written;
    assert Greeting(c, s) == if HasCreds(c) then [5, 255] else [5, 0];
  }

  /** The client is let in. */
  predicate LetIn(c: Client, s: Server) {
    if s.auth.Some? then
      c.user.Some? && c.pass.Some? && Registered(s.auth.value, Sent(c.user.value), Sent(c.pass.value))
    else c.user.None? || c.pass.None?
  }

  /** What a client that is let in writes. */
  function Question(c: Client, command: Byte): Bytes {
    (if c.user.Some? && c.pass.Some? then
       [5, 1, 2, 1, |c.user.value| % 256] + Sent(c.user.value) + [|c.pass.value| % 256] + Sent(c.pass.value)
     else [5, 1, 0]) + ([5, command, 0] + c.addr)
  }

  /** What the server answers to it. */
  function Reaction(s: Server, rep: Byte, bound: SockAddr): Bytes {
    (if s.auth.Some? then [5, 2, 1, 0] else [5, 0]) + ([5, rep, 0] + FromSock(bound))
  }

  /** The run ended with this answer. */
  predicate Replied(c: Client, s: Server, f: Net, command: Byte, rep: Byte, bound: SockAddr) {
    && f.cLog == Question(c, command) && f.sLog == Reaction(s, rep, bound)
    && f.sp == SReturn(if rep == 0 then 0 else -1)
    && f.cp == CReturn(if rep == 0 && c.accepts(FromSock(bound)[1..]) then 0 else -1)
  }

  lemma {:induction false} RepliedBy(c: Client, s: Server, ps: seq<Peer>)
    requires Over(c, s, ps) && LetIn(c, s) && CanAsk(c)
    ensures var a := Answer(c, s);
      a.WriteReply? && a.rep < 256 && Replied(c, s, Run(c, s, START, ps), Command(c.kind), a.rep, a.addr)
  {
    Outcome(c, s, ps);
    AnswerOctet(c, s);
    Spelled(c, s);
    var a := Answer(c, s);
    hide Answer, Written, Greeting;
    assert Reply(a.rep, a.addr) == [5, a.rep, 0] + FromSock(a.addr);
  }

  lemma {:induction false} Spelled(c: Client, s: Server)
    requires LetIn(c, s) && CanAsk(c)
    ensures Admitted(c, s) && Written(c) == Question(c, Command(c.kind))
    ensures Greeting(c, s) == if s.auth.Some? then [5, 2, 1, 0] else [5, 0]
  {
    if HasCreds(c) {
      var u, p := c.user.value, c.pass.value;
      var a: Byte, b: Byte := |u| % 256, |p| % 256;
      assert [5, 1, 2] + ([1, a] + Cut(u) + [b] + Cut(p)) == [5, 1, 2, 1, a] + Sent(u) + [b] + Sent(p);
      assert [5, 2] + [1, 0] == [5, 2, 1, 0];
    } else {
      assert [5, 1, 0] + [] == [5, 1, 0] && [5, 0] + [] == [5, 0];
    }
  }

  /** The address that a client asks for, once it is resolved. */
  predicate LeadsTo(s: Server, addr: Bytes, t: SockAddr) {
    WholeAddr(addr) && if addr[0] == NAME then s.resolve(addr) == Some(t) else SameAddress(addr, t)
  }

  /** A numeric address and the socket address with the same bytes. */
  predicate SameAddress(addr: Bytes, t: SockAddr) {
    || (|addr| == 7 && addr[0] == IPV4 && t.ip == MAPPED + addr[1..5] && t.port == addr[5..])
    || (|addr| == 19 && addr[0] == IPV6 && t.ip == addr[1..17] && t.port == addr[17..])
  }

  /** The answer to each kind of request: 0 with the address when it is served; 4 when a
      connection cannot be made; 1 when a socket cannot be bound. A forwarded association
      ignores the address and gives it back; a plain one tells where it is bound. */
  lemma {:induction false} Answers(c: Client, s: Server, ps: seq<Peer>, t: SockAddr)
    requires Over(c, s, ps) && LetIn(c, s) && LeadsTo(s, c.addr, t)
    ensures var f := Run(c, s, START, ps);
      match c.kind
      case Tcp => Replied(c, s, f, 1, if s.connect(t) then 0 else 4, t)
      case UdpInTcp => Replied(c, s, f, 5, if s.bindAny then 0 else 1, t)
      case UdpInUdp =>
        (match s.bind(t) case Some(bound) => Replied(c, s, f, 3, 0, bound) case None => Replied(c, s, f, 3, 1, t))
      case Unknown => f.cp == CReturn(-1) && f.sp == SReturn(-1)
  {
    if c.kind == Unknown {
      Outcome(c, s, ps);
    } else {
      hide Over, LetIn, Replied;
      RepliedBy(c, s, ps);
      assert Target(s, c.addr) == Some(t);
    }
  }

  /** A name that cannot be resolved is answered with 8. */
  lemma {:induction false} Unresolved(c: Client, s: Server, ps: seq<Peer>)
    requires Over(c, s, ps) && LetIn(c, s) && c.kind != Unknown && WholeAddr(c.addr)
    requires c.addr[0] == NAME && s.resolve(c.addr).None?
    ensures Replied(c, s, Run(c, s, START, ps), Command(c.kind), 8, s.junk)
  {
    hide Over, LetIn, Replied;
    RepliedBy(c, s, ps);
  }
}
