/**
 * TCP addresses and endpoints (include/ioring/tcp.hpp). An endpoint is the
 * byte image of a `sockaddr_storage` and the length handed to the kernel.
 * Multi-byte host-order fields are laid out little-endian (x86-64, AArch64).
 */
module Tcp {
  import opened SocketBase

  // <sys/socket.h>, <netinet/in.h> on Linux
  const AF_INET: int := 2
  const AF_INET6: int := 10
  const SOCK_STREAM: int := 1
  const IPPROTO_TCP: int := 6
  /** sizeof(sa_family_t) + sizeof(in_port_t): where the address bytes start. */
  const ADDRESS_OFFSET: nat := 4
  /** sizeof(sockaddr): the smallest length an endpoint reports. */
  const SOCKADDR_SIZE: nat := 16
  /** sizeof(in6_addr): the widest address `address_generic` holds. */
  const IN6_ADDR_SIZE: nat := 16
  /** sizeof(sockaddr_in6). */
  const SOCKADDR_IN6_SIZE: nat := 28
  /** `sa_family_t` and `in_port_t` are 16 bits wide. */
  const U16_RANGE: nat := 0x1_0000

  /**
   * An address as the endpoint constructor sees it: `domain()`, and
   * `size()` bytes starting at `bytes()`.
   */
  datatype Address = Address(domain: int, bytes: seq<byte>)

  /** `address_v4()`: INADDR_ANY, four zero bytes. */
  function AddressV4(): (a: Address)
    ensures a.domain == AF_INET && |a.bytes| == 4
    ensures forall i :: 0 <= i < |a.bytes| ==> a.bytes[i] == 0
  {
    Address(AF_INET, Zeros(4))
  }

  /** `address_v6()`: IN6ADDR_ANY_INIT, sixteen zero bytes. */
  function AddressV6(): (a: Address)
    ensures a.domain == AF_INET6 && |a.bytes| == IN6_ADDR_SIZE
    ensures forall i :: 0 <= i < |a.bytes| ==> a.bytes[i] == 0
  {
    Address(AF_INET6, Zeros(IN6_ADDR_SIZE))
  }

  /**
   * `address_generic(addr)`: the family kept in an `sa_family_t` (16 bits),
   * the first `addr.size()` bytes of an `in6_addr` copied from the address,
   * and that size as its own. The `in6_addr` bytes past the size are never
   * written and never read back through `bytes()`/`size()`.
   */
  function AddressGeneric(a: Address): (g: Address)
    requires |a.bytes| <= IN6_ADDR_SIZE
    ensures 0 <= g.domain < U16_RANGE
    ensures 0 <= a.domain < U16_RANGE ==> g.domain == a.domain
    ensures g.bytes == a.bytes
  {
    Address(a.domain % U16_RANGE, a.bytes)
  }

  /** Wrapping a generic address again changes nothing. */
  lemma AddressGenericIdempotent(a: Address)
    requires |a.bytes| <= IN6_ADDR_SIZE
    ensures AddressGeneric(AddressGeneric(a)) == AddressGeneric(a)
  {
  }

  /** `tcp::endpoint`: the storage bytes and `len_`. */
  datatype Endpoint = Endpoint(data: seq<byte>, len: nat)

  /** A 16-bit value in host order (little-endian). */
  function HostU16(v: nat): (b: seq<byte>)
    requires v < U16_RANGE
    ensures |b| == 2 && b[0] as int + 256 * b[1] as int == v
  {
    [v % 256, v / 256]
  }

  /** A 16-bit value in network order, `htons(v)` as stored. */
  function NetU16(v: nat): (b: seq<byte>)
    requires v < U16_RANGE
    ensures |b| == 2 && 256 * b[0] as int + b[1] as int == v
  {
    [v / 256, v % 256]
  }

  /**
   * `endpoint(addr, port)`: zeroed storage; the family at bytes 0..1, the
   * port in network order at bytes 2..3, the address bytes from byte 4; the
   * length is 4 plus the address size, raised to `sizeof(sockaddr)`.
   */
  function MakeEndpoint(a: Address, port: nat): (e: Endpoint)
    requires port < U16_RANGE && |a.bytes| <= IN6_ADDR_SIZE
    ensures |e.data| == SOCKADDR_STORAGE_SIZE
  {
    var bytes := HostU16(a.domain % U16_RANGE) + NetU16(port) + a.bytes;
    var len := ADDRESS_OFFSET + |a.bytes|;
    Endpoint(Stored(bytes), if len < SOCKADDR_SIZE then SOCKADDR_SIZE else len)
  }

  /** The family a stored endpoint announces (`ss_family`). */
  function Family(data: seq<byte>): nat
    requires |data| >= 2
  {
    data[0] as int + 256 * data[1] as int
  }

  /** The port a stored endpoint carries, read back from network order. */
  function Port(data: seq<byte>): nat
    requires |data| >= 4
  {
    256 * data[2] as int + data[3] as int
  }

  /**
   * Reading an endpoint back: the family is the address's domain as a
   * 16-bit value, the port is the one given, the address bytes sit verbatim
   * at offset 4, every later byte is zero, and the length is
   * `max(4 + size, 16)`.
   */
  lemma MakeEndpointDecodes(a: Address, port: nat)
    requires port < U16_RANGE && |a.bytes| <= IN6_ADDR_SIZE
    ensures var e := MakeEndpoint(a, port);
      && Family(e.data) == a.domain % U16_RANGE
      && Port(e.data) == port
      && e.data[ADDRESS_OFFSET..ADDRESS_OFFSET + |a.bytes|] == a.bytes
      && (forall i :: ADDRESS_OFFSET + |a.bytes| <= i < |e.data| ==> e.data[i] == 0)
      && e.len >= SOCKADDR_SIZE && e.len >= ADDRESS_OFFSET + |a.bytes|
      && (e.len == SOCKADDR_SIZE || e.len == ADDRESS_OFFSET + |a.bytes|)
  {
    var bytes := HostU16(a.domain % U16_RANGE) + NetU16(port) + a.bytes;
    var e := MakeEndpoint(a, port);
    assert e.data[..|bytes|] == bytes;
    assert e.data[ADDRESS_OFFSET..ADDRESS_OFFSET + |a.bytes|] == bytes[ADDRESS_OFFSET..];
  }

  /** The length in use: 16 for a four-byte address, 20 for a sixteen-byte one. */
  lemma EndpointLengths(a: Address, port: nat)
    requires port < U16_RANGE && |a.bytes| <= IN6_ADDR_SIZE
    ensures |a.bytes| == 4 ==> MakeEndpoint(a, port).len == SOCKADDR_SIZE
    ensures |a.bytes| == IN6_ADDR_SIZE ==> MakeEndpoint(a, port).len == 20
  {
  }

  /**
   * `endpoint(const SockAddr &addr)`: `sizeof(addr)` bytes copied to the
   * front of the zeroed storage and that size as the length.
   */
  function EndpointFromSockAddr(raw: seq<byte>): (e: Endpoint)
    requires |raw| <= SOCKADDR_STORAGE_SIZE
    ensures |e.data| == SOCKADDR_STORAGE_SIZE && e.data[..|raw|] == raw && e.len == |raw|
    ensures forall i :: |raw| <= i < |e.data| ==> e.data[i] == 0
  {
    Endpoint(Stored(raw), |raw|)
  }

  /**
   * An independent `struct sockaddr_in`: `sin_family`, `sin_port` in
   * network order, `sin_addr`, eight bytes of `sin_zero`.
   */
  function SockAddrIn(addr: seq<byte>, port: nat): (s: seq<byte>)
    requires |addr| == 4 && port < U16_RANGE
    ensures |s| == SOCKADDR_SIZE
  {
    HostU16(AF_INET) + NetU16(port) + addr + Zeros(8)
  }

  /**
   * For IPv4 the two constructors agree: the endpoint built from an address
   * and a port is the endpoint copied from the matching `sockaddr_in`.
   */
  lemma V4EndpointIsSockAddrIn(addr: seq<byte>, port: nat)
    requires |addr| == 4 && port < U16_RANGE
    ensures MakeEndpoint(Address(AF_INET, addr), port) == EndpointFromSockAddr(SockAddrIn(addr, port))
  {
    var head := HostU16(AF_INET) + NetU16(port) + addr;
    assert SockAddrIn(addr, port) + Zeros(SOCKADDR_STORAGE_SIZE - SOCKADDR_SIZE)
        == head + Zeros(SOCKADDR_STORAGE_SIZE - |head|);
  }

  /**
   * An independent `struct sockaddr_in6`: `sin6_family`, `sin6_port` in
   * network order, `sin6_flowinfo` (4 bytes), `sin6_addr` (16 bytes),
   * `sin6_scope_id` (4 bytes); section 3.3 of RFC 3493.
   */
  function SockAddrIn6(addr: seq<byte>, port: nat): (s: seq<byte>)
    requires |addr| == IN6_ADDR_SIZE && port < U16_RANGE
    ensures |s| == SOCKADDR_IN6_SIZE
  {
    HostU16(AF_INET6) + NetU16(port) + Zeros(4) + addr + Zeros(4)
  }

  /**
   * The shortest length Linux accepts for an AF_INET6 address
   * (SIN6_LEN_RFC2133: a `sockaddr_in6` without `sin6_scope_id`).
   */
  const SIN6_LEN_RFC2133: nat := 24

  /** Bytes 8..23, where a `sockaddr_in6` keeps `sin6_addr`. */
  function V6AddressField(data: seq<byte>): seq<byte>
    requires |data| >= 24
  {
    data[8..24]
  }

  /** The IPv6 loopback address `::1`. */
  function V6Loopback(): (b: seq<byte>)
    ensures |b| == IN6_ADDR_SIZE
  {
    Zeros(15) + [1]
  }

  /**
   * As written, an IPv6 endpoint is 20 bytes long, 8 short of a
   * `sockaddr_in6`, and its address starts where `sin6_flowinfo` belongs.
   * Its first four bytes land in `sin6_flowinfo`. The `sin6_addr` field
   * holds the last twelve bytes followed by four zeros.
   */
  lemma V6EndpointMisplacesAddress(addr: seq<byte>, port: nat)
    requires |addr| == IN6_ADDR_SIZE && port < U16_RANGE
    ensures var e := MakeEndpoint(Address(AF_INET6, addr), port);
      && e.len == 20 && e.len < SOCKADDR_IN6_SIZE
      && e.data[4..8] == addr[..4]
      && V6AddressField(e.data) == addr[4..] + Zeros(4)
  {
    var bytes := HostU16(AF_INET6) + NetU16(port) + addr;
    var e := MakeEndpoint(Address(AF_INET6, addr), port);
    assert e.data[..|bytes|] == bytes;
    assert e.data[4..8] == bytes[4..8];
    assert V6AddressField(e.data) == bytes[8..] + e.data[20..24];
  }

  /**
   * For `::1`, bytes 8..23, where `sockaddr_in6` keeps `sin6_addr`, are not
   * `::1`, and the length 20 is below the 24 bytes Linux requires of an
   * AF_INET6 address.
   */
  lemma V6LoopbackEndpointIsWrong()
    ensures V6AddressField(MakeEndpoint(Address(AF_INET6, V6Loopback()), 80).data) != V6Loopback()
    ensures MakeEndpoint(Address(AF_INET6, V6Loopback()), 80).len < SIN6_LEN_RFC2133
  {
    V6EndpointMisplacesAddress(V6Loopback(), 80);
    assert (V6Loopback()[4..] + Zeros(4))[11] == 1;
  }

  /**
   * The endpoint the IPv6 case evidently intends: a `sockaddr_in6` when
   * the address is sixteen bytes of family AF_INET6, the layout as written
   * otherwise.
   */
  function IntendedEndpoint(a: Address, port: nat): (e: Endpoint)
    requires port < U16_RANGE && |a.bytes| <= IN6_ADDR_SIZE
    ensures |e.data| == SOCKADDR_STORAGE_SIZE
  {
    if a.domain == AF_INET6 && |a.bytes| == IN6_ADDR_SIZE then
      EndpointFromSockAddr(SockAddrIn6(a.bytes, port))
    else
      MakeEndpoint(a, port)
  }

  /**
   * The intended IPv6 endpoint has the size of a `sockaddr_in6` and
   * carries its family, port and address where the kernel reads them; IPv4
   * endpoints are unchanged.
   */
  lemma IntendedEndpointV6(a: Address, port: nat)
    requires port < U16_RANGE && |a.bytes| <= IN6_ADDR_SIZE
    ensures a.domain == AF_INET6 && |a.bytes| == IN6_ADDR_SIZE ==>
      var e := IntendedEndpoint(a, port);
      && e.len == SOCKADDR_IN6_SIZE
      && Family(e.data) == AF_INET6 && Port(e.data) == port
      && V6AddressField(e.data) == a.bytes
    ensures a.domain != AF_INET6 ==> IntendedEndpoint(a, port) == MakeEndpoint(a, port)
  {
    if a.domain == AF_INET6 && |a.bytes| == IN6_ADDR_SIZE {
      var s := SockAddrIn6(a.bytes, port);
      var e := IntendedEndpoint(a, port);
      assert e.data[..SOCKADDR_IN6_SIZE] == s;
      assert V6AddressField(e.data) == s[8..24];
    }
  }

  /** `struct tcp`: socket() arguments and the address `loopback()` returns. */
  datatype Protocol = Protocol(domain: int, socketType: int, protocol: int, loopbackAddr: Address)

  /** `tcp::v4()`. */
  function V4(): (p: Protocol)
    ensures p.domain == AF_INET && p.socketType == SOCK_STREAM && p.protocol == IPPROTO_TCP
    ensures p.loopbackAddr.domain == p.domain && |p.loopbackAddr.bytes| == 4
  {
    Protocol(AF_INET, SOCK_STREAM, IPPROTO_TCP, AddressGeneric(AddressV4()))
  }

  /** `loopback()`. */
  function Loopback(p: Protocol): (a: Address)
    ensures a == p.loopbackAddr
  {
    p.loopbackAddr
  }

  /**
   * `tcp::v4()` opens TCP stream sockets over IPv4, and its `loopback()` is
   * INADDR_ANY (0.0.0.0) of family AF_INET, not 127.0.0.1.
   */
  lemma V4LoopbackIsAny()
    ensures V4().domain == AF_INET && V4().socketType == SOCK_STREAM && V4().protocol == IPPROTO_TCP
    ensures Loopback(V4()).domain == AF_INET
    ensures Loopback(V4()).bytes == Zeros(4)
    ensures Loopback(V4()).bytes != [127, 0, 0, 1]
  {
    assert Loopback(V4()).bytes[0] == 0;
  }
}
