/** The SOCKS5 handshake (sections 3, 4 and 6 of RFC 1928, section 2 of RFC 1929): the
    client of hev-socks5-client.c in its two orders against the server of
    hev-socks5-server.c, as two programs over a pair of byte channels. */
module Handshake {
  import opened Basics
  import opened KeyOrder
  import opened SocksAddr

  /** What a program does next. A read waits for its `n` bytes, and comes back short when
      the peer has returned and closed its end. */
  datatype Act = Say(bytes: Bytes) | Hear(n: nat) | Finish(res: int)

  // ---------- the client ----------

  datatype Kind = Tcp | UdpInTcp | UdpInUdp | Unknown

  /** `pipelined` selects the order; `accepts` is the class's handling of the bound address. */
  datatype Client = Client(pipelined: bool, user: Option<Bytes>, pass: Option<Bytes>, kind: Kind, addr: Bytes,
                           accepts: Bytes -> bool)

  datatype CPc =
    | WriteMethods
    | ReadMethod
    | WriteCreds
    | ReadCreds
    | WriteRequest
    | ReadReply
    | ReadBound(n: nat)
    | CReturn(res: int)

  predicate HasCreds(c: Client) {
    c.user.Some? && c.pass.Some?
  }

  /** A string cut to the length that its one-byte length field says. */
  function Cut(s: Bytes): (r: Bytes)
    ensures |r| == |s| % 256
  {
    s[..|s| % 256]
  }

  function Methods(c: Client): Bytes {
    [5, 1, if HasCreds(c) then 2 else 0]
  }

  function Creds(c: Client): Bytes {
    if HasCreds(c) then [1, |c.user.value| % 256] + Cut(c.user.value) + [|c.pass.value| % 256] + Cut(c.pass.value)
      else []
  }

  function Command(k: Kind): int {
    match k case Tcp => 1 case UdpInTcp => 5 case UdpInUdp => 3 case Unknown => -1
  }

  /** The request can be written. */
  predicate CanAsk(c: Client) {
    c.kind != Unknown && WholeAddr(c.addr)
  }

  function Request(c: Client): Bytes
    requires CanAsk(c)
  {
    [5, Command(c.kind), 0] + c.addr
  }

  function CAct(c: Client, pc: CPc): Act {
    match pc
    case WriteMethods => Say(Methods(c))
    case WriteCreds => Say(Creds(c))
    case WriteRequest => Say(if CanAsk(c) then Request(c) else [])
    case ReadMethod => Hear(2)
    case ReadCreds => Hear(2)
    case ReadReply => Hear(4)
    case ReadBound(n) => Hear(n)
    case CReturn(res) => Finish(res)
  }

  /** After a write. */
  function CSaid(c: Client, pc: CPc): CPc {
    match pc
    case WriteMethods => if c.pipelined then WriteCreds else ReadMethod
    case WriteCreds => if c.pipelined then WriteRequest else ReadCreds
    case WriteRequest => if !CanAsk(c) then CReturn(-1) else if c.pipelined then ReadMethod else ReadReply
    case _ => pc
  }

  /** After a read; `got` is shorter than asked for if the server is gone. */
  function CHeard(c: Client, pc: CPc, got: Bytes): CPc {
    match pc
    case ReadMethod =>
      if |got| != 2 || got[0] != 5 then CReturn(-1)
      else if got[1] == 2 then (if c.pipelined then ReadCreds else WriteCreds)
      else if got[1] == 0 then (if c.pipelined then ReadReply else WriteRequest)
      else CReturn(-1)
    case ReadCreds =>
      if |got| != 2 || got[0] != 1 || got[1] != 0 then CReturn(-1)
      else if c.pipelined then ReadReply else WriteRequest
    case ReadReply =>
      if |got| != 4 || got[0] != 5 || got[1] != 0 then CReturn(-1)
      else if got[3] == IPV4 then ReadBound(6)
      else if got[3] == IPV6 then ReadBound(18)
      else CReturn(-1)
    case ReadBound(n) => CReturn(if |got| == n && c.accepts(got) then 0 else -1)
    case _ => pc
  }

  /** Steps a client can still take. */
  function CRank(c: Client, pc: CPc): nat {
    match pc
    case CReturn(_) => 0
    case ReadBound(_) => 1
    case ReadReply => 2
    case WriteRequest => if c.pipelined then 5 else 3
    case ReadCreds => if c.pipelined then 3 else 4
    case WriteCreds => if c.pipelined then 6 else 5
    case ReadMethod => if c.pipelined then 4 else 6
    case WriteMethods => 7
  }

  // ---------- the server ----------

  /** The user database or none, and the outcomes of resolving, connecting and binding;
      `junk` is what an unset address structure holds. */
  datatype Server = Server(auth: Option<map<Name, Bytes>>, resolve: Bytes -> Option<SockAddr>,
                           connect: SockAddr -> bool, bind: SockAddr -> Option<SockAddr>, bindAny: bool, junk: SockAddr)

  datatype SPc =
    | ReadVersion
    | ReadMethods(n: nat)
    | WriteMethod(m: int)
    | ReadUser
    | ReadName(n: nat)
    | ReadPass(name: Bytes, n: nat)
    | WriteAuth(res: int)
    | ReadRequest
    | ReadAddr(head: Bytes, n: nat)
    | WriteReply(rep: nat, addr: SockAddr)
    | SReturn(res: int)

  function Octet(n: int): Byte {
    n % 256
  }

  function Reply(rep: nat, addr: SockAddr): Bytes {
    [5, Octet(rep), 0] + FromSock(addr)
  }

  function SAct(s: Server, pc: SPc): Act {
    match pc
    case ReadVersion => Hear(2)
    case ReadMethods(n) => Hear(n)
    case WriteMethod(m) => Say([5, Octet(m)])
    case ReadUser => Hear(2)
    case ReadName(n) => Hear(n + 1)
    case ReadPass(_, n) => Hear(n)
    case WriteAuth(res) => Say([1, Octet(res)])
    case ReadRequest => Hear(5)
    case ReadAddr(_, n) => Hear(n)
    case WriteReply(rep, addr) => Say(Reply(rep, addr))
    case SReturn(res) => Finish(res)
  }

  function SSaid(s: Server, pc: SPc): SPc {
    match pc
    case WriteMethod(m) => if m == 0 then ReadRequest else if m == 2 then ReadUser else SReturn(-1)
    case WriteAuth(res) => if res < 0 then SReturn(-1) else ReadRequest
    case WriteReply(rep, _) => SReturn(if rep == 0 then 0 else -1)
    case _ => pc
  }

  function Wanted(s: Server): int {
    if s.auth.Some? then 2 else 0
  }

  function SHeard(s: Server, pc: SPc, got: Bytes): SPc {
    match pc
    case ReadVersion => if |got| != 2 || got[0] != 5 then WriteMethod(-1) else ReadMethods(got[1])
    case ReadMethods(n) => WriteMethod(if |got| == n && Offers(got, Wanted(s)) then Wanted(s) else -1)
    case ReadUser => if |got| != 2 || got[0] != 1 || got[1] == 0 then WriteAuth(-1) else ReadName(got[1])
    case ReadName(n) => if |got| != n + 1 || got[n] == 0 then WriteAuth(-1) else ReadPass(got[..n], got[n])
    case ReadPass(name, n) => WriteAuth(if |got| == n && Knows(s, name, got) then 0 else -1)
    case ReadRequest => AfterHead(s, got)
    case ReadAddr(head, n) => AfterAddr(s, head, n, got)
    case _ => pc
  }

  /** The search loop over the offered methods. */
  predicate Offers(methods: Bytes, m: int) {
    exists i :: 0 <= i < |methods| && methods[i] == m
  }

  predicate Knows(s: Server, name: Bytes, pass: Bytes) {
    s.auth.Some? && name in s.auth.value && s.auth.value[name] == pass
  }

  function AfterHead(s: Server, got: Bytes): SPc {
    if |got| != 5 then SReturn(-1)
    else if got[0] != 5 then WriteReply(1, s.junk)
    else if got[3] == IPV4 then ReadAddr(got, 5)
    else if got[3] == IPV6 then ReadAddr(got, 17)
    else if got[3] == NAME then ReadAddr(got, 2 + got[4] as int)
    else WriteReply(8, s.junk)
  }

  function AfterAddr(s: Server, head: Bytes, n: nat, got: Bytes): SPc {
    if |head| != 5 || |got| != n then WriteReply(8, s.junk)
    else
      var target := Target(s, head[3..] + got);
      if target.None? then WriteReply(8, s.junk) else Serve(s, head[1], target.value)
  }

  /** The address to serve, resolved if it is a name. */
  function Target(s: Server, a: Bytes): Option<SockAddr> {
    if !WholeAddr(a) then None else if a[0] == NAME then s.resolve(a) else Some(IntoSock(a))
  }

  function Serve(s: Server, cmd: Byte, a: SockAddr): SPc {
    if cmd == 1 then (if s.connect(a) then WriteReply(0, a) else WriteReply(4, a))
    else if cmd == 3 then (if s.bind(a).Some? then WriteReply(0, s.bind(a).value) else WriteReply(1, a))
    else if cmd == 5 then WriteReply(if s.bindAny then 0 else 1, a)
    else WriteReply(7, a)
  }

  function SRank(pc: SPc): nat {
    match pc
    case SReturn(_) => 0
    case WriteReply(_, _) => 1
    case ReadAddr(_, _) => 2
    case ReadRequest => 3
    case WriteAuth(_) => 4
    case ReadPass(_, _) => 5
    case ReadName(_) => 6
    case ReadUser => 7
    case WriteMethod(_) => 8
    case ReadMethods(_) => 9
    case ReadVersion => 10
  }

  // ---------- both together ----------

  /** Where both programs are, what is under way, and all that was ever written. */
  datatype Net = Net(cp: CPc, sp: SPc, c2s: Bytes, s2c: Bytes, cLog: Bytes, sLog: Bytes)

  const START: Net := Net(WriteMethods, ReadVersion, [], [], [], [])

  datatype Peer = AtClient | AtServer

  /** A peer can move: it writes, its bytes are there, or no more will come. */
  predicate Ready(c: Client, s: Server, n: Net, p: Peer) {
    match p
    case AtClient =>
      (match CAct(c, n.cp) case Say(_) => true case Hear(k) => |n.s2c| >= k || n.sp.SReturn? case Finish(_) => false)
    case AtServer =>
      (match SAct(s, n.sp) case Say(_) => true case Hear(k) => |n.c2s| >= k || n.cp.CReturn? case Finish(_) => false)
  }

  function Least(a: nat, b: nat): nat {
    if a <= b then a else b
  }

  function Move(c: Client, s: Server, n: Net, p: Peer): Net
    requires Ready(c, s, n, p)
  {
    match p
    case AtClient =>
      (match CAct(c, n.cp)
       case Say(b) => n.(cp := CSaid(c, n.cp), c2s := n.c2s + b, cLog := n.cLog + b)
       case Hear(k) =>
         var m := Least(k, |n.s2c|);
         n.(cp := CHeard(c, n.cp, n.s2c[..m]), s2c := n.s2c[m..])
       case Finish(_) => n)
    case AtServer =>
      (match SAct(s, n.sp)
       case Say(b) => n.(sp := SSaid(s, n.sp), s2c := n.s2c + b, sLog := n.sLog + b)
       case Hear(k) =>
         var m := Least(k, |n.c2s|);
         n.(sp := SHeard(s, n.sp, n.c2s[..m]), c2s := n.c2s[m..])
       case Finish(_) => n)
  }

  function Rank(c: Client, n: Net): nat {
    CRank(c, n.cp) + SRank(n.sp)
  }

  lemma {:induction false} MoveRank(c: Client, s: Server, n: Net, p: Peer)
    requires Ready(c, s, n, p)
    ensures Rank(c, Move(c, s, n, p)) < Rank(c, n)
  {
  }

  // ---------- every schedule ends the same way ----------

  /** The two peers do not get in each other's way. */
  lemma {:induction false} Commute(c: Client, s: Server, n: Net)
    requires Ready(c, s, n, AtClient) && Ready(c, s, n, AtServer)
    ensures var a, b := Move(c, s, n, AtClient), Move(c, s, n, AtServer);
      && Ready(c, s, a, AtServer) && Ready(c, s, b, AtClient)
      && Move(c, s, a, AtServer) == Move(c, s, b, AtClient)
  {
    assert CAct(c, n.cp).Finish? <==> n.cp.CReturn?;
    assert SAct(s, n.sp).Finish? <==> n.sp.SReturn?;
    hide CSaid, SSaid, CHeard, SHeard, CAct, SAct;
    var ca, sa := CAct(c, n.cp), SAct(s, n.sp);
    if ca.Hear? && sa.Say? {
      assert n.s2c[..ca.n] == (n.s2c + sa.bytes)[..ca.n];
      assert (n.s2c + sa.bytes)[ca.n..] == n.s2c[ca.n..] + sa.bytes;
    } else if ca.Say? && sa.Hear? {
      assert n.c2s[..sa.n] == (n.c2s + ca.bytes)[..sa.n];
      assert (n.c2s + ca.bytes)[sa.n..] == n.c2s[sa.n..] + ca.bytes;
    }
  }

  /** Where the handshake ends when the client moves whenever it can. */
  ghost function Final(c: Client, s: Server, n: Net): Net
    decreases Rank(c, n)
  {
    if Ready(c, s, n, AtClient) then
      MoveRank(c, s, n, AtClient);
      Final(c, s, Move(c, s, n, AtClient))
    else if Ready(c, s, n, AtServer) then
      MoveRank(c, s, n, AtServer);
      Final(c, s, Move(c, s, n, AtServer))
    else n
  }

  /** No move changes where it ends. */
  lemma {:induction false} MoveFinal(c: Client, s: Server, n: Net, p: Peer)
    requires Ready(c, s, n, p)
    ensures Final(c, s, Move(c, s, n, p)) == Final(c, s, n)
    decreases Rank(c, n)
  {
    if p == AtServer && Ready(c, s, n, AtClient) {
      var a, b := Move(c, s, n, AtClient), Move(c, s, n, AtServer);
      hide Ready, Move, Rank;
      Commute(c, s, n);
      MoveRank(c, s, n, AtClient);
      MoveFinal(c, s, a, AtServer);
    }
  }

  ghost predicate Possible(c: Client, s: Server, n: Net, ps: seq<Peer>)
    decreases |ps|
  {
    ps == [] || (Ready(c, s, n, ps[0]) && Possible(c, s, Move(c, s, n, ps[0]), ps[1..]))
  }

  ghost function Run(c: Client, s: Server, n: Net, ps: seq<Peer>): Net
    requires Possible(c, s, n, ps)
    decreases |ps|
  {
    if ps == [] then n else Run(c, s, Move(c, s, n, ps[0]), ps[1..])
  }

  ghost predicate Stuck(c: Client, s: Server, n: Net) {
    !Ready(c, s, n, AtClient) && !Ready(c, s, n, AtServer)
  }

  /** Every schedule that runs until nobody can move ends in the same state. */
  lemma {:induction false} Confluent(c: Client, s: Server, n: Net, ps: seq<Peer>)
    requires Possible(c, s, n, ps) && Stuck(c, s, Run(c, s, n, ps))
    ensures Run(c, s, n, ps) == Final(c, s, n)
    decreases |ps|
  {
    if ps != [] {
      MoveFinal(c, s, n, ps[0]);
      Confluent(c, s, Move(c, s, n, ps[0]), ps[1..]);
    }
  }

  /** No schedule is longer than a fixed bound. */
  lemma {:induction false} Bounded(c: Client, s: Server, n: Net, ps: seq<Peer>)
    requires Possible(c, s, n, ps)
    ensures |ps| <= Rank(c, n)
    decreases |ps|
  {
    if ps != [] {
      MoveRank(c, s, n, ps[0]);
      Bounded(c, s, Move(c, s, n, ps[0]), ps[1..]);
    }
  }
}
