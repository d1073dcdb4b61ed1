/** How the handshake of `Handshake` ends, in both orders of the client. */
module HandshakeOutcome {
  import opened Basics
  import opened KeyOrder
  import opened SocksAddr
  import opened Handshake

  /** The client offers what the server wants. */
  predicate MethodsAgree(c: Client, s: Server) {
    HasCreds(c) <==> s.auth.Some?
  }

  /** The credentials, as cut to their length fields, are not empty and the server knows them. */
  predicate CredsPass(c: Client, s: Server)
    requires HasCreds(c)
  {
    var name, pass := Cut(c.user.value), Cut(c.pass.value);
    name != [] && pass != [] && Knows(s, name, pass)
  }

  predicate Admitted(c: Client, s: Server) {
    MethodsAgree(c, s) && (HasCreds(c) ==> CredsPass(c, s))
  }

  /** What the server answers to the request. */
  function Answer(c: Client, s: Server): SPc
    requires CanAsk(c)
  {
    var t := Target(s, c.addr);
    if t.None? then WriteReply(8, s.junk) else Serve(s, Command(c.kind), t.value)
  }

  predicate ServerSucceeds(c: Client, s: Server) {
    Admitted(c, s) && CanAsk(c) && Answer(c, s).WriteReply? && Answer(c, s).rep == 0
  }

  predicate ClientSucceeds(c: Client, s: Server) {
    ServerSucceeds(c, s) && c.accepts(FromSock(Answer(c, s).addr)[1..])
  }

  // ---------- single moves ----------

  lemma {:induction false} ClientSays(c: Client, s: Server, n: Net)
    requires CAct(c, n.cp).Say?
    ensures var b := CAct(c, n.cp).bytes;
      Final(c, s, n) == Final(c, s, n.(cp := CSaid(c, n.cp), c2s := n.c2s + b, cLog := n.cLog + b))
  {
    MoveFinal(c, s, n, AtClient);
  }

  lemma {:induction false} ClientHears(c: Client, s: Server, n: Net, msg: Bytes, rest: Bytes)
    requires CAct(c, n.cp) == Hear(|msg|) && n.s2c == msg + rest
    ensures Final(c, s, n) == Final(c, s, n.(cp := CHeard(c, n.cp, msg), s2c := rest))
  {
    assert n.s2c[..|msg|] == msg && n.s2c[|msg|..] == rest;
    MoveFinal(c, s, n, AtClient);
  }

  lemma {:induction false} ServerSays(c: Client, s: Server, n: Net)
    requires SAct(s, n.sp).Say?
    ensures var b := SAct(s, n.sp).bytes;
      Final(c, s, n) == Final(c, s, n.(sp := SSaid(s, n.sp), s2c := n.s2c + b, sLog := n.sLog + b))
  {
    MoveFinal(c, s, n, AtServer);
  }

  lemma {:induction false} ServerHears(c: Client, s: Server, n: Net, msg: Bytes, rest: Bytes)
    requires SAct(s, n.sp) == Hear(|msg|) && n.c2s == msg + rest
    ensures Final(c, s, n) == Final(c, s, n.(sp := SHeard(s, n.sp, msg), c2s := rest))
  {
    assert n.c2s[..|msg|] == msg && n.c2s[|msg|..] == rest;
    MoveFinal(c, s, n, AtServer);
  }

  // ---------- the server's stages ----------

  function MethodReply(c: Client, s: Server): Bytes {
    [5, if MethodsAgree(c, s) then Octet(Wanted(s)) else 255]
  }

  function AuthReply(c: Client, s: Server): Bytes
    requires HasCreds(c)
  {
    [1, if CredsPass(c, s) then 0 else 255]
  }

  /** The server reads the methods and answers. */
  lemma {:induction false} ServerMethods(c: Client, s: Server, n: Net, rest: Bytes)
    requires n.sp == ReadVersion && n.c2s == Methods(c) + rest
    ensures var sp := if !MethodsAgree(c, s) then SReturn(-1) else if HasCreds(c) then ReadUser else ReadRequest;
      var b := MethodReply(c, s);
      Final(c, s, n) == Final(c, s, n.(sp := sp, c2s := rest, s2c := n.s2c + b, sLog := n.sLog + b))
  {
    var m := if HasCreds(c) then 2 else 0;
    assert n.c2s == [5, 1] + ([m] + rest);
    ServerHears(c, s, n, [5, 1], [m] + rest);
    var n1 := n.(sp := ReadMethods(1), c2s := [m] + rest);
    assert Offers([m], Wanted(s)) <==> MethodsAgree(c, s) by { assert [m][0] == m; }
    ServerHears(c, s, n1, [m], rest);
    var n2 := n1.(sp := WriteMethod(if MethodsAgree(c, s) then Wanted(s) else -1), c2s := rest);
    ServerSays(c, s, n2);
  }

  lemma {:induction false} CutLength(s: Bytes)
    ensures |Cut(s)| == |s| % 256
  {
  }

  lemma {:induction false} Parts(name: Bytes, pass: Bytes, rest: Bytes)
    requires |name| < 256 && |pass| < 256
    ensures var part := name + [|pass|];
      var tail := name + [|pass|] + pass + rest;
      tail == part + (pass + rest) && part[..|name|] == name && part[|name|] == |pass| &&
      [1, |name|] + name + [|pass|] + pass + rest == [1, |name|] + tail
  {
  }

  /** The server reads the credentials and answers; after a refusal bytes may be left. */
  lemma {:induction false} ServerCreds(c: Client, s: Server, n: Net, rest: Bytes) returns (left: Bytes)
    requires n.sp == ReadUser && HasCreds(c) && n.c2s == Creds(c) + rest
    ensures var sp := if CredsPass(c, s) then ReadRequest else SReturn(-1);
      var b := AuthReply(c, s);
      Final(c, s, n) == Final(c, s, n.(sp := sp, c2s := left, s2c := n.s2c + b, sLog := n.sLog + b))
    ensures CredsPass(c, s) ==> left == rest
  {
    hide Final, Cut, Knows;
    var name, pass := Cut(c.user.value), Cut(c.pass.value);
    CutLength(c.user.value);
    CutLength(c.pass.value);
    var tail := name + [|pass|] + pass + rest;
    Parts(name, pass, rest);
    ServerHears(c, s, n, [1, |name|], tail);
    left := tail;
    var n1 := n.(sp := SHeard(s, ReadUser, [1, |name|]), c2s := tail);
    if name != [] {
      var part := name + [|pass|];
      ServerHears(c, s, n1, part, pass + rest);
      left := pass + rest;
      var n2 := n1.(sp := SHeard(s, n1.sp, part), c2s := pass + rest);
      if pass != [] {
        ServerHears(c, s, n2, pass, rest);
        left := rest;
        ServerSays(c, s, n2.(sp := WriteAuth(if Knows(s, name, pass) then 0 else -1), c2s := rest));
      } else {
        ServerSays(c, s, n2);
      }
    } else {
      ServerSays(c, s, n1);
    }
  }

  /** The server reads the request, serves it and answers. */
  lemma {:induction false} ServerRequest(c: Client, s: Server, n: Net, rest: Bytes)
    requires n.sp == ReadRequest && CanAsk(c) && n.c2s == Request(c) + rest
    ensures Answer(c, s).WriteReply?
    ensures var r := Answer(c, s);
      var b := Reply(r.rep, r.addr);
      Final(c, s, n) ==
      Final(c, s, n.(sp := SReturn(if r.rep == 0 then 0 else -1), c2s := rest, s2c := n.s2c + b, sLog := n.sLog + b))
  {
    hide Final;
    var a := c.addr;
    var cmd: Byte := Command(c.kind);
    var head, body := [5, cmd, 0, a[0], a[1]], a[2..];
    assert n.c2s == head + (body + rest);
    ServerHears(c, s, n, head, body + rest);
    var n1 := n.(sp := ReadAddr(head, |body|), c2s := body + rest);
    assert SHeard(s, ReadRequest, head) == ReadAddr(head, |body|);
    ServerHears(c, s, n1, body, rest);
    assert head[3..] + body == a;
    ServerSays(c, s, n1.(sp := Answer(c, s), c2s := rest));
  }

  // ---------- the client's last stage ----------

  /** The client reads the server's answer; after a refusal bytes may be left. */
  lemma {:induction false} ClientReply(c: Client, s: Server, n: Net, rep: Byte, addr: SockAddr, rest: Bytes)
    returns (left: Bytes)
    requires n.cp == ReadReply && n.s2c == Reply(rep, addr) + rest
    ensures var ok := rep == 0 && c.accepts(FromSock(addr)[1..]);
      Final(c, s, n) == Final(c, s, n.(cp := CReturn(if ok then 0 else -1), s2c := left))
    ensures rep == 0 ==> left == rest
  {
    var a := FromSock(addr);
    var head, body := [5, rep, 0, a[0]], a[1..];
    assert n.s2c == head + (body + rest);
    ClientHears(c, s, n, head, body + rest);
    left := body + rest;
    if rep == 0 {
      var n1 := n.(cp := ReadBound(|body|), s2c := left);
      assert CHeard(c, ReadReply, head) == ReadBound(|body|);
      ClientHears(c, s, n1, body, rest);
      left := rest;
    }
  }

  lemma {:induction false} AnswerOctet(c: Client, s: Server)
    requires CanAsk(c)
    ensures Answer(c, s).WriteReply? && Answer(c, s).rep < 256
  {
  }

  // ---------- all together ----------

  /** Everything the client writes, everything the server writes before it reads the request. */
  function Written(c: Client): Bytes
    requires CanAsk(c)
  {
    Methods(c) + Creds(c) + Request(c)
  }

  function Greeting(c: Client, s: Server): Bytes {
    MethodReply(c, s) + if HasCreds(c) && MethodsAgree(c, s) then AuthReply(c, s) else []
  }

  /** The client is admitted and its request is under way: the same in both orders. */
  function Asked(c: Client, s: Server): Net
    requires CanAsk(c)
  {
    Net(ReadReply, ReadRequest, Request(c), [], Written(c), Greeting(c, s))
  }

  /** Both peers have given up, and the server wrote just `log`. */
  predicate Refused(f: Net, log: Bytes) {
    f.cp == CReturn(-1) && f.sp == SReturn(-1) && f.sLog == log
  }

  lemma {:induction false} Both(c: Client, s: Server, n: Net)
    requires n.cp.CReturn? && n.sp.SReturn?
    ensures Final(c, s, n) == n
  {
  }

  /** The pipelining client has written everything before it reads. */
  lemma {:induction false} PipelineWrites(c: Client, s: Server)
    requires c.pipelined
    ensures var b := Methods(c) + Creds(c) + (if CanAsk(c) then Request(c) else []);
      Final(c, s, START) == Final(c, s, Net(if CanAsk(c) then ReadMethod else CReturn(-1), ReadVersion, b, [], b, []))
  {
    ClientSays(c, s, START);
    var m := Methods(c);
    assert [] + m == m;
    var n1 := START.(cp := WriteCreds, c2s := m, cLog := m);
    ClientSays(c, s, n1);
    var n2 := n1.(cp := WriteRequest, c2s := m + Creds(c), cLog := m + Creds(c));
    ClientSays(c, s, n2);
  }

  /** From the method reply on, the pipelining client only reads. */
  lemma {:induction false} PipelineHears(c: Client, s: Server, n: Net, rest: Bytes) returns (left: Bytes)
    requires c.pipelined && n.cp == ReadMethod && n.s2c == Greeting(c, s) + rest
    ensures Final(c, s, n) == Final(c, s, n.(cp := if Admitted(c, s) then ReadReply else CReturn(-1), s2c := left))
    ensures Admitted(c, s) ==> left == rest
  {
    var m := MethodReply(c, s);
    var more := (if HasCreds(c) && MethodsAgree(c, s) then AuthReply(c, s) else []) + rest;
    assert n.s2c == m + more;
    ClientHears(c, s, n, m, more);
    left := more;
    if MethodsAgree(c, s) && HasCreds(c) {
      var n1 := n.(cp := ReadCreds, s2c := more);
      ClientHears(c, s, n1, AuthReply(c, s), rest);
      left := rest;
    }
  }

  /** The server reads methods and credentials that are already there. */
  lemma {:induction false} ServerGreets(c: Client, s: Server, n: Net, rest: Bytes) returns (left: Bytes)
    requires n.sp == ReadVersion && n.c2s == Methods(c) + Creds(c) + rest && n.s2c == n.sLog == []
    ensures var g := Greeting(c, s);
      var sp := if Admitted(c, s) then ReadRequest else SReturn(-1);
      Final(c, s, n) == Final(c, s, n.(sp := sp, c2s := left, s2c := g, sLog := g))
    ensures Admitted(c, s) ==> left == rest
  {
    hide Final;
    left := Creds(c) + rest;
    assert n.c2s == Methods(c) + left;
    ServerMethods(c, s, n, left);
    var m := MethodReply(c, s);
    assert [] + m == m && m + [] == m && [] + rest == rest;
    if MethodsAgree(c, s) && HasCreds(c) {
      left := ServerCreds(c, s, n.(sp := ReadUser, c2s := left, s2c := m, sLog := m), rest);
    }
  }

  /** A server whose client is gone before it asked gives up. */
  lemma {:induction false} ServerAlone(c: Client, s: Server, n: Net)
    requires n.cp.CReturn? && n.sp == ReadRequest && n.c2s == []
    ensures Final(c, s, n) == n.(sp := SReturn(-1))
  {
    MoveFinal(c, s, n, AtServer);
    assert n.c2s[0..] == n.c2s;
    Both(c, s, n.(sp := SReturn(-1)));
  }

  lemma {:induction false} PipelineAsked(c: Client, s: Server)
    requires c.pipelined
    ensures if Admitted(c, s) && CanAsk(c) then Final(c, s, START) == Final(c, s, Asked(c, s))
            else Refused(Final(c, s, START), Greeting(c, s))
  {
    var r, g := (if CanAsk(c) then Request(c) else []), Greeting(c, s);
    var b := Methods(c) + Creds(c) + r;
    PipelineWrites(c, s);
    var n := Net(if CanAsk(c) then ReadMethod else CReturn(-1), ReadVersion, b, [], b, []);
    var left := ServerGreets(c, s, n, r);
    var sp := if Admitted(c, s) then ReadRequest else SReturn(-1);
    var n1 := n.(sp := sp, c2s := left, s2c := g, sLog := g);
    if CanAsk(c) {
      assert g + [] == g;
      var left' := PipelineHears(c, s, n1, []);
      if !Admitted(c, s) {
        Both(c, s, n1.(cp := CReturn(-1), s2c := left'));
      }
    } else if Admitted(c, s) {
      ServerAlone(c, s, n1);
    } else {
      Both(c, s, n1);
    }
  }

  /** The standard client up to its request. */
  lemma {:induction false} StandardGreeted(c: Client, s: Server)
    requires !c.pipelined
    ensures var b, g := Methods(c) + Creds(c), Greeting(c, s);
      if Admitted(c, s) then Final(c, s, START) == Final(c, s, Net(WriteRequest, ReadRequest, [], [], b, g))
      else Refused(Final(c, s, START), g)
  {
    hide Final;
    var m, mr := Methods(c), MethodReply(c, s);
    assert [] + m == m && m + [] == m && [] + mr == mr && mr + [] == mr;
    ClientSays(c, s, START);
    var n1 := START.(cp := ReadMethod, c2s := m, cLog := m);
    ServerMethods(c, s, n1, []);
    var sp := if !MethodsAgree(c, s) then SReturn(-1) else if HasCreds(c) then ReadUser else ReadRequest;
    var n2 := n1.(sp := sp, c2s := [], s2c := mr, sLog := mr);
    ClientHears(c, s, n2, mr, []);
    var n3 := n2.(cp := CHeard(c, ReadMethod, mr), s2c := []);
    if !MethodsAgree(c, s) {
      Both(c, s, n3);
    } else if HasCreds(c) {
      StandardCreds(c, s, n3);
    } else {
      assert m + Creds(c) == m;
    }
  }

  lemma {:induction false} StandardCreds(c: Client, s: Server, n: Net)
    requires !c.pipelined && HasCreds(c) && MethodsAgree(c, s)
    requires n == Net(WriteCreds, ReadUser, [], [], Methods(c), MethodReply(c, s))
    ensures var b, g := Methods(c) + Creds(c), Greeting(c, s);
      if CredsPass(c, s) then Final(c, s, n) == Final(c, s, Net(WriteRequest, ReadRequest, [], [], b, g))
      else Refused(Final(c, s, n), g)
  {
    var cr, ar := Creds(c), AuthReply(c, s);
    assert [] + cr == cr && cr + [] == cr && [] + ar == ar && ar + [] == ar;
    ClientSays(c, s, n);
    var n1 := n.(cp := ReadCreds, c2s := cr, cLog := Methods(c) + cr);
    var left := ServerCreds(c, s, n1, []);
    var sp2 := if CredsPass(c, s) then ReadRequest else SReturn(-1);
    var n2 := n1.(sp := sp2, c2s := left, s2c := ar, sLog := MethodReply(c, s) + ar);
    ClientHears(c, s, n2, ar, []);
    if !CredsPass(c, s) {
      Both(c, s, n2.(cp := CReturn(-1), s2c := []));
    }
  }

  lemma {:induction false} StandardAsked(c: Client, s: Server)
    requires !c.pipelined
    ensures if Admitted(c, s) && CanAsk(c) then Final(c, s, START) == Final(c, s, Asked(c, s))
            else Refused(Final(c, s, START), Greeting(c, s))
  {
    StandardGreeted(c, s);
    if Admitted(c, s) {
      var n := Net(WriteRequest, ReadRequest, [], [], Methods(c) + Creds(c), Greeting(c, s));
      ClientSays(c, s, n);
      if CanAsk(c) {
        assert [] + Request(c) == Request(c);
      } else {
        assert n.c2s + [] == n.c2s && n.cLog + [] == n.cLog;
        ServerAlone(c, s, n.(cp := CReturn(-1)));
      }
    }
  }

  /** How every handshake ends, in either order and under every schedule: both peers
      return; the server succeeds exactly when the client is admitted and its request is
      served, the client exactly when it also accepts the bound address; and then each has
      read all that the other wrote, which does not depend on the order. */
  lemma {:induction false} Outcome(c: Client, s: Server, ps: seq<Peer>)
    requires Possible(c, s, START, ps) && Stuck(c, s, Run(c, s, START, ps))
    ensures var f := Run(c, s, START, ps);
      && f.cp == CReturn(if ClientSucceeds(c, s) then 0 else -1)
      && f.sp == SReturn(if ServerSucceeds(c, s) then 0 else -1)
      && f.sLog == Greeting(c, s) +
                   (if Admitted(c, s) && CanAsk(c) then Reply(Answer(c, s).rep, Answer(c, s).addr) else [])
      && (Admitted(c, s) && CanAsk(c) ==> f.cLog == Written(c))
      && (ServerSucceeds(c, s) ==> f.c2s == f.s2c == [])
  {
    Confluent(c, s, START, ps);
    if c.pipelined {
      PipelineAsked(c, s);
    } else {
      StandardAsked(c, s);
    }
    if Admitted(c, s) && CanAsk(c) {
      Answered(c, s);
    }
  }

  lemma {:induction false} Answered(c: Client, s: Server)
    requires Admitted(c, s) && CanAsk(c)
    ensures var f := Final(c, s, Asked(c, s));
      && f.cp == CReturn(if ClientSucceeds(c, s) then 0 else -1)
      && f.sp == SReturn(if ServerSucceeds(c, s) then 0 else -1)
      && f.sLog == Greeting(c, s) + Reply(Answer(c, s).rep, Answer(c, s).addr) && f.cLog == Written(c)
      && (ServerSucceeds(c, s) ==> f.c2s == f.s2c == [])
  {
    var n := Asked(c, s);
    AnswerOctet(c, s);
    assert Request(c) + [] == Request(c);
    ServerRequest(c, s, n, []);
    var r := Answer(c, s);
    var b := Reply(r.rep, r.addr);
    assert [] + b == b && b + [] == b;
    hide Answer, Reply, Greeting, Written;
    var n1 := n.(sp := SReturn(if r.rep == 0 then 0 else -1), c2s := [], s2c := b, sLog := n.sLog + b);
    var left := ClientReply(c, s, n1, r.rep, r.addr, []);
    var ok := r.rep == 0 && c.accepts(FromSock(r.addr)[1..]);
    Both(c, s, n1.(cp := CReturn(if ok then 0 else -1), s2c := left));
  }

  /** The two orders are interchangeable: the same results, and on success the same bytes
      in both directions. */
  lemma {:induction false} OrdersEquivalent(c: Client, s: Server, ps: seq<Peer>, qs: seq<Peer>)
    requires Possible(c.(pipelined := false), s, START, ps) &&
      Stuck(c.(pipelined := false), s, Run(c.(pipelined := false), s, START, ps))
    requires Possible(c.(pipelined := true), s, START, qs) &&
      Stuck(c.(pipelined := true), s, Run(c.(pipelined := true), s, START, qs))
    ensures var f, g := Run(c.(pipelined := false), s, START, ps), Run(c.(pipelined := true), s, START, qs);
      f.cp == g.cp && f.sp == g.sp && (f.sp == SReturn(0) ==> f == g)
  {
    Outcome(c.(pipelined := false), s, ps);
    Outcome(c.(pipelined := true), s, qs);
  }
}
