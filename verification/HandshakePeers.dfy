/** Each side of the handshake on its own, against a peer that may send anything. */
module HandshakePeers {
  import opened Basics
  import opened KeyOrder
  import opened SocksAddr
  import opened Handshake
  import opened HandshakeOutcome
  import opened HandshakeReplies

  /** The result of a program, all that it wrote, and what it did not read. */
  datatype Ran = Ran(res: int, out: Bytes, left: Bytes)

  /** The server when the client sends `b` and no more. */
  function ServerOn(s: Server, pc: SPc, b: Bytes): Ran
    decreases SRank(pc)
  {
    match SAct(s, pc)
    case Finish(res) => Ran(res, [], b)
    case Say(w) =>
      var r := ServerOn(s, SSaid(s, pc), b);
      r.(out := w + r.out)
    case Hear(k) =>
      var m := Least(k, |b|);
      ServerOn(s, SHeard(s, pc, b[..m]), b[m..])
  }

  /** The client when the server sends `b` and no more. */
  function ClientOn(c: Client, pc: CPc, b: Bytes): Ran
    decreases CRank(c, pc)
  {
    match CAct(c, pc)
    case Finish(res) => Ran(res, [], b)
    case Say(w) =>
      var r := ClientOn(c, CSaid(c, pc), b);
      r.(out := w + r.out)
    case Hear(k) =>
      var m := Least(k, |b|);
      ClientOn(c, CHeard(c, pc, b[..m]), b[m..])
  }

  // ---------- a program depends on nothing but what it hears ----------

  /** In every run the server does what it would do alone with the client's bytes. */
  lemma {:induction false} ServerRuns(c: Client, s: Server, n: Net, ps: seq<Peer>) returns (w: Bytes, o: Bytes)
    requires Possible(c, s, n, ps) && Run(c, s, n, ps).sp.SReturn?
    ensures var f := Run(c, s, n, ps);
      && f.cLog == n.cLog + w && f.sLog == n.sLog + o && (n.cp.CReturn? ==> w == [])
      && ServerOn(s, n.sp, n.c2s + w) == Ran(f.sp.res, o, f.c2s)
    decreases |ps|
  {
    if ps == [] {
      w, o := [], [];
      assert n.c2s + [] == n.c2s;
    } else {
      var n1 := Move(c, s, n, ps[0]);
      w, o := ServerRuns(c, s, n1, ps[1..]);
      if ps[0] == AtClient {
        w := ClientMoves(c, s, n, w);
      } else {
        o := ServerMoves(c, s, n, w, o);
      }
    }
  }

  lemma {:induction false} ClientMoves(c: Client, s: Server, n: Net, w1: Bytes) returns (w: Bytes)
    requires Ready(c, s, n, AtClient)
    ensures var n1 := Move(c, s, n, AtClient);
      n1.sp == n.sp && n1.sLog == n.sLog && n1.c2s + w1 == n.c2s + w && n1.cLog + w1 == n.cLog + w && !n.cp.CReturn?
  {
    w := w1;
    match CAct(c, n.cp)
    case Say(b) =>
      w := b + w1;
      assert n.c2s + b + w1 == n.c2s + (b + w1) && n.cLog + b + w1 == n.cLog + (b + w1);
    case _ =>
  }

  lemma {:induction false} ServerMoves(c: Client, s: Server, n: Net, w: Bytes, o1: Bytes) returns (o: Bytes)
    requires Ready(c, s, n, AtServer) && (n.cp.CReturn? ==> w == [])
    requires var n1 := Move(c, s, n, AtServer); ServerOn(s, n1.sp, n1.c2s + w).out == o1
    ensures var n1 := Move(c, s, n, AtServer);
      && n1.cp == n.cp && n1.cLog == n.cLog && n1.sLog + o1 == n.sLog + o
      && ServerOn(s, n.sp, n.c2s + w) == ServerOn(s, n1.sp, n1.c2s + w).(out := o)
  {
    hide SHeard, SSaid;
    o := o1;
    match SAct(s, n.sp)
    case Say(b) =>
      o := b + o1;
      assert n.sLog + b + o1 == n.sLog + (b + o1);
    case Hear(k) =>
      var t := n.c2s + w;
      if |n.c2s| < k {
        assert n.c2s + [] == n.c2s && n.c2s[|n.c2s|..] + [] == n.c2s[|n.c2s|..];
      } else {
        assert t[..k] == n.c2s[..k] && t[k..] == n.c2s[k..] + w;
      }
    case _ =>
  }

  /** The same for the client. */
  lemma {:induction false} ClientRuns(c: Client, s: Server, n: Net, ps: seq<Peer>) returns (w: Bytes, o: Bytes)
    requires Possible(c, s, n, ps) && Run(c, s, n, ps).cp.CReturn?
    ensures var f := Run(c, s, n, ps);
      && f.sLog == n.sLog + w && f.cLog == n.cLog + o && (n.sp.SReturn? ==> w == [])
      && ClientOn(c, n.cp, n.s2c + w) == Ran(f.cp.res, o, f.s2c)
    decreases |ps|
  {
    if ps == [] {
      w, o := [], [];
      assert n.s2c + [] == n.s2c;
    } else {
      var n1 := Move(c, s, n, ps[0]);
      w, o := ClientRuns(c, s, n1, ps[1..]);
      if ps[0] == AtServer {
        w := ServerWrites(c, s, n, w);
      } else {
        o := ClientSteps(c, s, n, w, o);
      }
    }
  }

  lemma {:induction false} ServerWrites(c: Client, s: Server, n: Net, w1: Bytes) returns (w: Bytes)
    requires Ready(c, s, n, AtServer)
    ensures var n1 := Move(c, s, n, AtServer);
      n1.cp == n.cp && n1.cLog == n.cLog && n1.s2c + w1 == n.s2c + w && n1.sLog + w1 == n.sLog + w && !n.sp.SReturn?
  {
    w := w1;
    match SAct(s, n.sp)
    case Say(b) =>
      w := b + w1;
      assert n.s2c + b + w1 == n.s2c + (b + w1) && n.sLog + b + w1 == n.sLog + (b + w1);
    case _ =>
  }

  lemma {:induction false} ClientSteps(c: Client, s: Server, n: Net, w: Bytes, o1: Bytes) returns (o: Bytes)
    requires Ready(c, s, n, AtClient) && (n.sp.SReturn? ==> w == [])
    requires var n1 := Move(c, s, n, AtClient); ClientOn(c, n1.cp, n1.s2c + w).out == o1
    ensures var n1 := Move(c, s, n, AtClient);
      && n1.sp == n.sp && n1.sLog == n.sLog && n1.cLog + o1 == n.cLog + o
      && ClientOn(c, n.cp, n.s2c + w) == ClientOn(c, n1.cp, n1.s2c + w).(out := o)
  {
    hide CHeard, CSaid;
    o := o1;
    match CAct(c, n.cp)
    case Say(b) =>
      o := b + o1;
      assert n.cLog + b + o1 == n.cLog + (b + o1);
    case Hear(k) =>
      var t := n.s2c + w;
      if |n.s2c| < k {
        assert n.s2c + [] == n.s2c && n.s2c[|n.s2c|..] + [] == n.s2c[|n.s2c|..];
      } else {
        assert t[..k] == n.s2c[..k] && t[k..] == n.s2c[k..] + w;
      }
    case _ =>
  }

  /** Both at once: how a run ends is what each side makes of the other's bytes. */
  lemma {:induction false} EachAlone(c: Client, s: Server, ps: seq<Peer>)
    requires Over(c, s, ps)
    ensures var f := Run(c, s, START, ps);
      && f.sp.SReturn? && ServerOn(s, ReadVersion, f.cLog) == Ran(f.sp.res, f.sLog, f.c2s)
      && f.cp.CReturn? && ClientOn(c, WriteMethods, f.sLog) == Ran(f.cp.res, f.cLog, f.s2c)
  {
    Outcome(c, s, ps);
    hide ServerOn, ClientOn;
    var w, o := ServerRuns(c, s, START, ps);
    assert [] + w == w && [] + o == o;
    var w', o' := ClientRuns(c, s, START, ps);
    assert [] + w' == w' && [] + o' == o';
  }

  // ---------- what the server takes ----------

  /** A client's bytes in their parts. */
  datatype Talk = Talk(methods: Bytes, name: Bytes, pass: Bytes, cmd: Byte, rsv: Byte, addr: Bytes, rest: Bytes)

  function Offer(t: Talk): Bytes {
    [5, |t.methods| % 256] + t.methods
  }

  function Login(t: Talk): Bytes {
    [1, |t.name| % 256] + t.name + [|t.pass| % 256] + t.pass
  }

  function Spoken(s: Server, t: Talk): Bytes {
    Offer(t) + ((if s.auth.Some? then Login(t) else []) + ([5, t.cmd, t.rsv] + t.addr + t.rest))
  }

  /** A talk that the server lets in: it offers the method that the server wants, and gives a
      registered name with its password if the server has a database. */
  predicate Welcome(s: Server, t: Talk) {
    && |t.methods| < 256 && WholeAddr(t.addr)
    && (s.auth.None? ==> 0 in t.methods)
    && (s.auth.Some? ==>
          && 2 in t.methods && |t.name| < 256 && |t.pass| < 256
          && Registered(s.auth.value, t.name, t.pass))
  }

  /** The request can be served. */
  ghost predicate Served(s: Server, cmd: Byte, addr: Bytes) {
    exists t :: LeadsTo(s, addr, t) && Serves(s, cmd, t)
  }

  predicate Serves(s: Server, cmd: Byte, t: SockAddr) {
    (cmd == 1 && s.connect(t)) || (cmd == 3 && s.bind(t).Some?) || (cmd == 5 && s.bindAny)
  }

  lemma {:induction false} Hears(s: Server, pc: SPc, msg: Bytes, rest: Bytes)
    requires SAct(s, pc) == Hear(|msg|)
    ensures ServerOn(s, pc, msg + rest) == ServerOn(s, SHeard(s, pc, msg), rest)
  {
    assert (msg + rest)[..|msg|] == msg && (msg + rest)[|msg|..] == rest;
  }

  lemma {:induction false} Says(s: Server, pc: SPc, b: Bytes)
    requires SAct(s, pc).Say?
    ensures var r := ServerOn(s, SSaid(s, pc), b);
      ServerOn(s, pc, b) == r.(out := SAct(s, pc).bytes + r.out)
  {
  }

  lemma {:induction false} TakesOffer(s: Server, t: Talk, rest: Bytes)
    requires |t.methods| < 256 && Wanted(s) in t.methods
    ensures ServerOn(s, ReadVersion, Offer(t) + rest).res ==
            ServerOn(s, if s.auth.Some? then ReadUser else ReadRequest, rest).res
  {
    hide ServerOn;
    var m := t.methods;
    assert Offer(t) + rest == [5, |m|] + (m + rest);
    Hears(s, ReadVersion, [5, |m|], m + rest);
    Hears(s, ReadMethods(|m|), m, rest);
    Says(s, WriteMethod(Wanted(s)), rest);
  }

  lemma {:induction false} TakesLogin(s: Server, t: Talk, rest: Bytes)
    requires s.auth.Some? && |t.name| < 256 && |t.pass| < 256 && Registered(s.auth.value, t.name, t.pass)
    ensures ServerOn(s, ReadUser, Login(t) + rest).res == ServerOn(s, ReadRequest, rest).res
  {
    hide ServerOn;
    var n, p := t.name, t.pass;
    var part := n + [|p|];
    assert Login(t) + rest == [1, |n|] + (part + (p + rest));
    Hears(s, ReadUser, [1, |n|], part + (p + rest));
    assert part[|n|] == |p| && part[..|n|] == n;
    Hears(s, ReadName(|n|), part, p + rest);
    Hears(s, ReadPass(n, |p|), p, rest);
    Says(s, WriteAuth(0), rest);
  }

  lemma {:induction false} TakesRequest(s: Server, cmd: Byte, rsv: Byte, addr: Bytes, rest: Bytes)
    requires WholeAddr(addr)
    ensures ServerOn(s, ReadRequest, [5, cmd, rsv] + addr + rest).res == 0 <==> Served(s, cmd, addr)
  {
    hide ServerOn, LeadsTo;
    var head, body := [5, cmd, rsv, addr[0], addr[1]], addr[2..];
    assert [5, cmd, rsv] + addr + rest == head + (body + rest);
    Hears(s, ReadRequest, head, body + rest);
    Hears(s, ReadAddr(head, |body|), body, rest);
    assert head[3..] + body == addr;
    var pc := AfterAddr(s, head, |body|, body);
    Says(s, pc, rest);
    Returned(s, SSaid(s, pc), rest);
    AfterIff(s, cmd, addr);
  }

  lemma {:induction false} Returned(s: Server, pc: SPc, b: Bytes)
    requires pc.SReturn?
    ensures ServerOn(s, pc, b) == Ran(pc.res, [], b)
  {
  }

  lemma {:induction false} AfterIff(s: Server, cmd: Byte, addr: Bytes)
    requires WholeAddr(addr)
    ensures var t := Target(s, addr);
      Served(s, cmd, addr) <==> t.Some? && Serve(s, cmd, t.value).WriteReply? && Serve(s, cmd, t.value).rep == 0
  {
    var t := Target(s, addr);
    if t.Some? {
      assert LeadsTo(s, addr, t.value);
    }
    forall x | LeadsTo(s, addr, x) ensures t == Some(x) {
    }
  }

  /** The server's result is 0 if and only if what it hears begins with a talk that it lets
      in and whose request it can serve, whoever the client is. */
  lemma {:induction false} ServerAccepts(s: Server, b: Bytes)
    ensures ServerOn(s, ReadVersion, b).res == 0 <==>
            exists t :: b == Spoken(s, t) && Welcome(s, t) && Served(s, t.cmd, t.addr)
  {
    hide ServerOn, Served;
    forall t | b == Spoken(s, t) && Welcome(s, t) && Served(s, t.cmd, t.addr)
      ensures ServerOn(s, ReadVersion, b).res == 0
    {
      Accepted(s, t);
    }
    if ServerOn(s, ReadVersion, b).res == 0 {
      var t := Understood(s, b);
    }
  }

  lemma {:induction false} Accepted(s: Server, t: Talk)
    requires Welcome(s, t)
    ensures ServerOn(s, ReadVersion, Spoken(s, t)).res == 0 <==> Served(s, t.cmd, t.addr)
  {
    hide ServerOn, Served, Offer, Login;
    var ask := [5, t.cmd, t.rsv] + t.addr + t.rest;
    TakesOffer(s, t, (if s.auth.Some? then Login(t) else []) + ask);
    if s.auth.Some? {
      TakesLogin(s, t, ask);
    } else {
      assert [] + ask == ask;
    }
    TakesRequest(s, t.cmd, t.rsv, t.addr, t.rest);
  }

  lemma {:induction false} Understood(s: Server, b: Bytes) returns (t: Talk)
    requires ServerOn(s, ReadVersion, b).res == 0
    ensures b == Spoken(s, t) && Welcome(s, t) && Served(s, t.cmd, t.addr)
  {
    hide ServerOn, Served, Offer, Login;
    var methods, b1 := OfferOf(s, b);
    var name, pass, b2 := [], [], b1;
    if s.auth.Some? {
      name, pass, b2 := LoginOf(s, b1);
    }
    var cmd, rsv, addr, rest := RequestOf(s, b2);
    t := Talk(methods, name, pass, cmd, rsv, addr, rest);
    Joined(s, t, b, b1, b2);
    Accepted(s, t);
  }

  lemma {:induction false} Joined(s: Server, t: Talk, b: Bytes, b1: Bytes, b2: Bytes)
    requires b == [5, |t.methods| % 256] + t.methods + b1 && b2 == [5, t.cmd, t.rsv] + t.addr + t.rest
    requires b1 == (if s.auth.Some? then [1, |t.name| % 256] + t.name + [|t.pass| % 256] + t.pass else []) + b2
    ensures b == Spoken(s, t)
  {
  }

  lemma {:induction false} Listens(s: Server, pc: SPc, b: Bytes)
    requires SAct(s, pc).Hear?
    ensures var m := Least(SAct(s, pc).n, |b|); ServerOn(s, pc, b) == ServerOn(s, SHeard(s, pc, b[..m]), b[m..])
  {
  }

  /** Where the server has given up. */
  predicate Fails(pc: SPc) {
    pc == WriteMethod(-1) || pc == WriteAuth(-1) || pc == SReturn(-1) || (pc.WriteReply? && pc.rep != 0)
  }

  lemma {:induction false} GivesUp(s: Server, pc: SPc, b: Bytes)
    requires Fails(pc)
    ensures ServerOn(s, pc, b).res == -1
  {
  }

  lemma {:induction false} OfferOf(s: Server, b: Bytes) returns (methods: Bytes, rest: Bytes)
    requires ServerOn(s, ReadVersion, b).res == 0
    ensures |methods| < 256 && Wanted(s) in methods && b == [5, |methods| % 256] + methods + rest
    ensures ServerOn(s, if s.auth.Some? then ReadUser else ReadRequest, rest).res == 0
  {
    hide ServerOn;
    Listens(s, ReadVersion, b);
    if |b| < 2 || b[0] != 5 {
      GivesUp(s, WriteMethod(-1), b[Least(2, |b|)..]);
      assert false;
    }
    var n: nat := b[1];
    methods, rest := MethodsOf(s, n, b[2..]);
    assert b == [5, n] + b[2..];
  }

  lemma {:induction false} MethodsOf(s: Server, n: nat, b: Bytes) returns (methods: Bytes, rest: Bytes)
    requires ServerOn(s, ReadMethods(n), b).res == 0
    ensures |methods| == n && Wanted(s) in methods && b == methods + rest
    ensures ServerOn(s, if s.auth.Some? then ReadUser else ReadRequest, rest).res == 0
  {
    hide ServerOn;
    Listens(s, ReadMethods(n), b);
    var m := Least(n, |b|);
    methods, rest := b[..m], b[m..];
    if m < n || !Offers(methods, Wanted(s)) {
      GivesUp(s, WriteMethod(-1), rest);
      assert false;
    }
    Says(s, WriteMethod(Wanted(s)), rest);
  }

  lemma {:induction false} LoginOf(s: Server, b: Bytes) returns (name: Bytes, pass: Bytes, rest: Bytes)
    requires s.auth.Some? && ServerOn(s, ReadUser, b).res == 0
    ensures |name| < 256 && |pass| < 256 && Registered(s.auth.value, name, pass)
    ensures b == [1, |name| % 256] + name + [|pass| % 256] + pass + rest && ServerOn(s, ReadRequest, rest).res == 0
  {
    hide ServerOn, Registered;
    Listens(s, ReadUser, b);
    if |b| < 2 || b[0] != 1 || b[1] == 0 {
      GivesUp(s, WriteAuth(-1), b[Least(2, |b|)..]);
      assert false;
    }
    var n: nat := b[1];
    var k, b1 := 0, b[2..];
    name, k, b1 := NameOf(s, n, b[2..]);
    pass, rest := PassOf(s, name, k, b1);
    LoginJoined(b, name, pass, rest);
  }

  lemma {:induction false} LoginJoined(b: Bytes, name: Bytes, pass: Bytes, rest: Bytes)
    requires |name| < 256 && |pass| < 256 && |b| >= 2 && b[0] == 1 && b[1] == |name|
    requires b[2..] == name + [|pass|] + (pass + rest)
    ensures b == [1, |name| % 256] + name + [|pass| % 256] + pass + rest
  {
    assert b == [1, |name|] + b[2..];
  }

  lemma {:induction false} NameOf(s: Server, n: nat, b: Bytes) returns (name: Bytes, k: nat, rest: Bytes)
    requires 0 < n < 256 && ServerOn(s, ReadName(n), b).res == 0
    ensures |name| == n && 0 < k < 256 && b == name + [k] + rest && ServerOn(s, ReadPass(name, k), rest).res == 0
  {
    hide ServerOn;
    Listens(s, ReadName(n), b);
    var m := Least(n + 1, |b|);
    if m < n + 1 || b[n] == 0 {
      GivesUp(s, WriteAuth(-1), b[m..]);
      assert false;
    }
    name, k, rest := b[..n], b[n], b[n + 1..];
    assert b[..m][..n] == name;
  }

  lemma {:induction false} PassOf(s: Server, name: Bytes, k: nat, b: Bytes) returns (pass: Bytes, rest: Bytes)
    requires s.auth.Some? && k > 0 && name != [] && ServerOn(s, ReadPass(name, k), b).res == 0
    ensures |pass| == k && Registered(s.auth.value, name, pass)
    ensures b == pass + rest && ServerOn(s, ReadRequest, rest).res == 0
  {
    hide ServerOn;
    Listens(s, ReadPass(name, k), b);
    var m := Least(k, |b|);
    pass, rest := b[..m], b[m..];
    if m < k || !Knows(s, name, pass) {
      GivesUp(s, WriteAuth(-1), rest);
      assert false;
    }
    Says(s, WriteAuth(0), rest);
  }

  lemma {:induction false} RequestOf(s: Server, b: Bytes) returns (cmd: Byte, rsv: Byte, addr: Bytes, rest: Bytes)
    requires ServerOn(s, ReadRequest, b).res == 0
    ensures WholeAddr(addr) && b == [5, cmd, rsv] + addr + rest
  {
    hide ServerOn;
    Listens(s, ReadRequest, b);
    var m := Least(5, |b|);
    var pc := AfterHead(s, b[..m]);
    if !pc.ReadAddr? {
      GivesUp(s, pc, b[m..]);
      assert false;
    }
    cmd, rsv := b[1], b[2];
    var body;
    body, rest := AddrOf(s, b[..5], pc.n, b[5..]);
    addr := b[3..5] + body;
    assert b == [5, cmd, rsv] + b[3..5] + b[5..];
  }

  lemma {:induction false} AddrOf(s: Server, head: Bytes, n: nat, b: Bytes) returns (body: Bytes, rest: Bytes)
    requires |head| == 5 && ServerOn(s, ReadAddr(head, n), b).res == 0
    ensures |body| == n && b == body + rest
  {
    hide ServerOn;
    Listens(s, ReadAddr(head, n), b);
    var m := Least(n, |b|);
    body, rest := b[..m], b[m..];
    if m < n {
      GivesUp(s, WriteReply(8, s.junk), rest);
      assert false;
    }
  }

  // ---------- what the client takes ----------

  /** A server's bytes in their parts. */
  datatype Echo = Echo(login: bool, rsv: Byte, bound: Bytes, rest: Bytes)

  function Uttered(e: Echo): Bytes {
    (if e.login then [5, 2, 1, 0] else [5, 0]) + ([5, 0, e.rsv, if |e.bound| == 6 then 1 else 4] + e.bound + e.rest)
  }

  lemma {:induction false} ClientListens(c: Client, pc: CPc, b: Bytes)
    requires CAct(c, pc).Hear?
    ensures var m := Least(CAct(c, pc).n, |b|); ClientOn(c, pc, b) == ClientOn(c, CHeard(c, pc, b[..m]), b[m..])
  {
  }

  lemma {:induction false} ClientSpeaks(c: Client, pc: CPc, b: Bytes)
    requires CAct(c, pc).Say?
    ensures ClientOn(c, pc, b).res == ClientOn(c, CSaid(c, pc), b).res
  {
  }

  lemma {:induction false} ClientDone(c: Client, res: int, b: Bytes)
    ensures ClientOn(c, CReturn(res), b).res == res
  {
  }

  /** From the answer to the request on: a success with an address of either kind that the
      class accepts. */
  lemma {:induction false} AnswerTaken(c: Client, b: Bytes)
    ensures ClientOn(c, ReadReply, b).res == 0 <==>
            (|b| >= 4 && b[0] == 5 && b[1] == 0 &&
             ((b[3] == 1 && |b| >= 10 && c.accepts(b[4..10])) || (b[3] == 4 && |b| >= 22 && c.accepts(b[4..22]))))
  {
    hide ClientOn;
    ClientListens(c, ReadReply, b);
    var m := Least(4, |b|);
    var pc, b1 := CHeard(c, ReadReply, b[..m]), b[m..];
    if pc.ReadBound? {
      ClientListens(c, pc, b1);
      var k := Least(pc.n, |b1|);
      ClientDone(c, CHeard(c, pc, b1[..k]).res, b1[k..]);
      assert |b1| >= 6 ==> b1[..6] == b[4..10];
      assert |b1| >= 18 ==> b1[..18] == b[4..22];
    } else {
      ClientDone(c, pc.res, b1);
    }
  }

  /** Where the answer to the request starts; -1 if the server did not let the client in. */
  function Behind(b: Bytes): int {
    if |b| < 2 || b[0] != 5 then -1
    else if b[1] == 0 then 2
    else if b[1] == 2 && |b| >= 4 && b[2] == 1 && b[3] == 0 then 4
    else -1
  }

  lemma {:induction false} CredsTaken(c: Client, b: Bytes)
    requires c.pipelined || CanAsk(c)
    ensures ClientOn(c, ReadCreds, b).res ==
            if |b| >= 2 && b[0] == 1 && b[1] == 0 then ClientOn(c, ReadReply, b[2..]).res else -1
  {
    hide ClientOn;
    ClientListens(c, ReadCreds, b);
    var m := Least(2, |b|);
    var pc := CHeard(c, ReadCreds, b[..m]);
    if pc.CReturn? {
      ClientDone(c, -1, b[m..]);
    } else if pc == WriteRequest {
      ClientSpeaks(c, pc, b[2..]);
    }
  }

  lemma {:induction false} MethodTaken(c: Client, b: Bytes)
    requires c.pipelined || CanAsk(c)
    ensures ClientOn(c, ReadMethod, b).res ==
            if Behind(b) < 0 then -1 else ClientOn(c, ReadReply, b[Behind(b)..]).res
  {
    hide ClientOn;
    ClientListens(c, ReadMethod, b);
    var m := Least(2, |b|);
    var pc, b1 := CHeard(c, ReadMethod, b[..m]), b[m..];
    if pc.CReturn? {
      ClientDone(c, -1, b1);
    } else {
      if pc == WriteRequest || pc == WriteCreds {
        ClientSpeaks(c, pc, b1);
      }
      if b[1] == 2 {
        CredsTaken(c, b1);
        assert |b1| >= 2 ==> b1[2..] == b[4..];
      }
    }
  }

  lemma {:induction false} AllTaken(c: Client, b: Bytes)
    ensures ClientOn(c, WriteMethods, b).res ==
            if CanAsk(c) && Behind(b) >= 0 then ClientOn(c, ReadReply, b[Behind(b)..]).res else -1
  {
    hide ClientOn;
    ClientSpeaks(c, WriteMethods, b);
    if c.pipelined {
      ClientSpeaks(c, WriteCreds, b);
      ClientSpeaks(c, WriteRequest, b);
      if CanAsk(c) {
        MethodTaken(c, b);
      } else {
        ClientDone(c, -1, b);
      }
    } else if CanAsk(c) {
      MethodTaken(c, b);
    } else {
      NeverAsks(c, b);
    }
  }

  lemma {:induction false} NeverAsks(c: Client, b: Bytes)
    requires !c.pipelined && !CanAsk(c)
    ensures ClientOn(c, ReadMethod, b).res == -1
  {
    hide ClientOn;
    ClientListens(c, ReadMethod, b);
    var m := Least(2, |b|);
    var pc, b1 := CHeard(c, ReadMethod, b[..m]), b[m..];
    if pc.CReturn? {
      ClientDone(c, -1, b1);
    } else if pc == WriteRequest {
      NoRequest(c, b1);
    } else {
      ClientSpeaks(c, WriteCreds, b1);
      ClientListens(c, ReadCreds, b1);
      var k := Least(2, |b1|);
      if CHeard(c, ReadCreds, b1[..k]) == WriteRequest {
        NoRequest(c, b1[k..]);
      } else {
        ClientDone(c, -1, b1[k..]);
      }
    }
  }

  lemma {:induction false} NoRequest(c: Client, b: Bytes)
    requires !CanAsk(c)
    ensures ClientOn(c, WriteRequest, b).res == -1
  {
    hide ClientOn;
    ClientSpeaks(c, WriteRequest, b);
    ClientDone(c, -1, b);
  }

  /** The client's result is 0 if and only if it can ask and hears that it is let in and
      that its request is served, with an address that its class accepts, whoever the
      server is. */
  lemma {:induction false} ClientAccepts(c: Client, b: Bytes)
    ensures ClientOn(c, WriteMethods, b).res == 0 <==>
            CanAsk(c) && exists e :: b == Uttered(e) && (|e.bound| == 6 || |e.bound| == 18) && c.accepts(e.bound)
  {
    hide ClientOn;
    AllTaken(c, b);
    var k := Behind(b);
    forall e | b == Uttered(e) && (|e.bound| == 6 || |e.bound| == 18)
      ensures k == (if e.login then 4 else 2) && EchoAt(b, k, e)
    {
      EchoFound(b, e);
    }
    if k >= 0 {
      AnswerTaken(c, b[k..]);
      if CanAsk(c) && ClientOn(c, ReadReply, b[k..]).res == 0 {
        var e := EchoOf(b, k);
        assert b == Uttered(e) && c.accepts(e.bound);
      }
    }
  }

  predicate EchoAt(b: Bytes, k: nat, e: Echo) {
    && k + 4 + |e.bound| <= |b| && b[k] == 5 && b[k + 1] == 0 && b[k + 3] == (if |e.bound| == 6 then 1 else 4)
    && b[k..][4..4 + |e.bound|] == e.bound
  }

  lemma {:induction false} EchoFound(b: Bytes, e: Echo)
    requires b == Uttered(e)
    ensures var k := Behind(b); k == (if e.login then 4 else 2) && EchoAt(b, k, e)
  {
    var k := if e.login then 4 else 2;
    var t := [5, 0, e.rsv, if |e.bound| == 6 then 1 else 4] + e.bound + e.rest;
    assert b[k..] == t && t[4..4 + |e.bound|] == e.bound;
    assert b[k] == t[0] && b[k + 1] == t[1] && b[k + 3] == t[3];
  }

  lemma {:induction false} EchoOf(b: Bytes, k: nat) returns (e: Echo)
    requires k == Behind(b) && k + 4 <= |b| && b[k] == 5 && b[k + 1] == 0
    requires (b[k + 3] == 1 && k + 10 <= |b|) || (b[k + 3] == 4 && k + 22 <= |b|)
    ensures b == Uttered(e) && e.bound == b[k..][4..4 + |e.bound|] && |e.bound| == if b[k + 3] == 1 then 6 else 18
  {
    var n := if b[k + 3] == 1 then 6 else 18;
    var t := b[k..];
    e := Echo(k == 4, t[2], t[4..4 + n], t[4 + n..]);
    assert t == [t[0], t[1], t[2], t[3]] + e.bound + e.rest;
    assert b[..k] == if e.login then [5, 2, 1, 0] else [5, 0];
    assert b == b[..k] + t;
  }
}
