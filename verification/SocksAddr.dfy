/** SOCKS5 addresses on the wire (section 4 of RFC 1928; hev-socks5-misc.c): type, address
    and port as one byte string. */
module SocksAddr {
  import opened KeyOrder

  type Bytes = seq<Byte>

  const IPV4: Byte := 1
  const NAME: Byte := 3
  const IPV6: Byte := 4

  /** `hev_socks5_addr_len` on the bytes of an address; -1 for an unknown type. */
  function AddrLen(a: Bytes): int
    requires |a| >= 2
  {
    if a[0] == IPV4 then 7
    else if a[0] == IPV6 then 19
    else if a[0] == NAME then 4 + (a[1] as int)
    else -1
  }

  /** Exactly one address. */
  predicate WholeAddr(a: Bytes) {
    |a| >= 2 && AddrLen(a) == |a|
  }

  /** A `struct sockaddr_in6`: 16 address bytes and 2 port bytes. */
  datatype SockAddrBytes = SockAddr(ip: Bytes, port: Bytes)

  type SockAddr = s: SockAddrBytes | |s.ip| == 16 && |s.port| == 2
    witness SockAddr([0, 0, 0, 0, 0, 0, 0, 0, 0, 0, 0, 0, 0, 0, 0, 0], [0, 0])

  predicate V4Mapped(ip: Bytes)
    requires |ip| == 16
  {
    ip[..12] == MAPPED
  }

  const MAPPED: Bytes := [0, 0, 0, 0, 0, 0, 0, 0, 0, 0, 0xFF, 0xFF]

  /** `hev_socks5_addr_from_sockaddr6`. */
  function FromSock(s: SockAddr): (a: Bytes)
    ensures WholeAddr(a)
  {
    if V4Mapped(s.ip) then [IPV4] + s.ip[12..] + s.port else [IPV6] + s.ip + s.port
  }

  /** `hev_socks5_addr_into_sockaddr6` for the two numeric types. */
  function IntoSock(a: Bytes): (s: SockAddr)
    requires WholeAddr(a) && a[0] != NAME
  {
    if a[0] == IPV4 then SockAddr(MAPPED + a[1..5], a[5..]) else SockAddr(a[1..17], a[17..])
  }

  /** Every socket address survives the trip through its wire form. */
  lemma {:induction false} FromThenInto(s: SockAddr)
    ensures FromSock(s)[0] != NAME && IntoSock(FromSock(s)) == s
  {
    var a := FromSock(s);
    if V4Mapped(s.ip) {
      assert a[1..5] == s.ip[12..] && a[5..] == s.port;
      assert s.ip == s.ip[..12] + s.ip[12..];
    } else {
      assert a[1..17] == s.ip && a[17..] == s.port;
    }
  }

  /** The other way round fails exactly for an IPv4-mapped address sent as IPv6. */
  lemma {:induction false} IntoThenFromIff(a: Bytes)
    requires WholeAddr(a) && a[0] != NAME
    ensures FromSock(IntoSock(a)) == a <==> !(a[0] == IPV6 && a[1..13] == MAPPED)
  {
    var s := IntoSock(a);
    if a[0] == IPV4 {
      assert s.ip[..12] == MAPPED && s.ip[12..] == a[1..5];
      assert a == [IPV4] + a[1..5] + a[5..];
    } else {
      assert s.ip[..12] == a[1..13];
      assert a == [IPV6] + a[1..17] + a[17..];
    }
  }

  /** ::ffff:a.b.c.d sent as IPv6 comes back as the IPv4 address a.b.c.d. */
  lemma {:induction false} MappedBecomesV4(ip: Bytes, port: Bytes)
    requires |ip| == 4 && |port| == 2
    ensures var a := [IPV6] + MAPPED + ip + port; WholeAddr(a) && FromSock(IntoSock(a)) == [IPV4] + ip + port
  {
    var a := [IPV6] + MAPPED + ip + port;
    assert a[1..17] == MAPPED + ip && a[17..] == port;
    assert (MAPPED + ip)[..12] == MAPPED && (MAPPED + ip)[12..] == ip;
  }
}
