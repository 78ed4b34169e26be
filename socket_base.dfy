/**
 * Generic socket addresses, the SO_REUSEADDR option value and the
 * asynchronous shutdown (include/ioring/socket_base.hpp).
 */
module SocketBase {
  import opened Uring
  import opened Descriptor

  type byte = x: int | 0 <= x < 256

  /** sizeof(sockaddr_storage). */
  const SOCKADDR_STORAGE_SIZE: nat := 128
  /** sizeof(int), the width of the option value. */
  const INT_SIZE: nat := 4
  // <sys/socket.h> on Linux
  const SOL_SOCKET: int := 1
  const SO_REUSEADDR: int := 2
  const SHUT_RD: nat := 0
  const SHUT_WR: nat := 1
  const SHUT_RDWR: nat := 2

  /** `n` zero bytes. */
  function Zeros(n: nat): (z: seq<byte>)
    ensures |z| == n && forall i :: 0 <= i < n ==> z[i] == 0
  {
    seq(n, _ => 0)
  }

  /** `b` at the front of a zeroed `sockaddr_storage`. */
  function Stored(b: seq<byte>): (s: seq<byte>)
    requires |b| <= SOCKADDR_STORAGE_SIZE
    ensures |s| == SOCKADDR_STORAGE_SIZE && s[..|b|] == b
    ensures forall i :: |b| <= i < SOCKADDR_STORAGE_SIZE ==> s[i] == 0
  {
    b + Zeros(SOCKADDR_STORAGE_SIZE - |b|)
  }

  /** `generic_endpoint`: a `sockaddr_storage` and the length in use. */
  datatype GenericEndpoint = GenericEndpoint(storage: seq<byte>, length: nat)

  /** `generic_endpoint()`: all zero, with the whole storage as its length. */
  function DefaultGenericEndpoint(): (g: GenericEndpoint)
    ensures |g.storage| == SOCKADDR_STORAGE_SIZE
    ensures forall i :: 0 <= i < |g.storage| ==> g.storage[i] == 0
    ensures g.length == SOCKADDR_STORAGE_SIZE
  {
    GenericEndpoint(Zeros(SOCKADDR_STORAGE_SIZE), SOCKADDR_STORAGE_SIZE)
  }

  /**
   * `generic_endpoint(const SockAddr &addr)`: the bytes of `addr` copied to
   * the front of the zeroed storage, and `sizeof(addr)` as the length.
   */
  function GenericEndpointFrom(addr: seq<byte>): (g: GenericEndpoint)
    requires |addr| <= SOCKADDR_STORAGE_SIZE
    ensures |g.storage| == SOCKADDR_STORAGE_SIZE && g.storage[..|addr|] == addr
    ensures forall i :: |addr| <= i < |g.storage| ==> g.storage[i] == 0
    ensures g.length == |addr|
  {
    GenericEndpoint(Stored(addr), |addr|)
  }

  /**
   * `socket_base::reuse_address`: an `int` holding the flag, as the
   * socket option sees it.
   */
  datatype ReuseAddress = ReuseAddress(value: int)

  /** `reuse_address(bool v)`. */
  function MakeReuseAddress(v: bool): (o: ReuseAddress)
    ensures o.value == if v then 1 else 0
  {
    ReuseAddress(if v then 1 else 0)
  }

  /** `explicit operator bool()`. */
  function IsSet(o: ReuseAddress): (b: bool)
    ensures b <==> o.value != 0
  {
    o.value != 0
  }

  /** `bool(reuse_address(v)) == v`. */
  lemma ReuseAddressRoundTrip(v: bool)
    ensures IsSet(MakeReuseAddress(v)) == v
  {
  }

  /** `layer()`. */
  function Layer(o: ReuseAddress): (l: int)
    ensures l == SOL_SOCKET
  {
    SOL_SOCKET
  }

  /** `name()`. */
  function Name(o: ReuseAddress): (n: int)
    ensures n == SO_REUSEADDR
  {
    SO_REUSEADDR
  }

  /** `length()`: the size of the option value. */
  function Length(o: ReuseAddress): (n: nat)
    ensures n == INT_SIZE
  {
    INT_SIZE
  }

  /**
   * `length(socklen_t len)`: the length `getsockopt` reports back is
   * asserted to be `sizeof(int)`; any other value fails the assertion.
   */
  function LengthAccepted(o: ReuseAddress, len: nat): (ok: bool)
    ensures ok <==> len == Length(o)
  {
    len == INT_SIZE
  }

  /** `socket_base::shutdown_method`. */
  datatype ShutdownMethod = ShutdownBoth | ShutdownRecv | ShutdownSend

  /** The method's numeric value, `static_cast<__u32>(method)`. */
  function ShutdownHow(m: ShutdownMethod): (n: nat)
    ensures m == ShutdownBoth ==> n == SHUT_RDWR
    ensures m == ShutdownRecv ==> n == SHUT_RD
    ensures m == ShutdownSend ==> n == SHUT_WR
  {
    match m
    case ShutdownBoth => SHUT_RDWR
    case ShutdownRecv => SHUT_RD
    case ShutdownSend => SHUT_WR
  }

  /** The three methods are told apart by their numbers. */
  lemma ShutdownHowInjective(m1: ShutdownMethod, m2: ShutdownMethod)
    ensures ShutdownHow(m1) == ShutdownHow(m2) ==> m1 == m2
  {
  }

  /**
   * The `async_shutdown` entry: zeroed, then opcode SHUTDOWN, the socket,
   * the method in `len` and the token.
   */
  function ShutdownEntry(fd: int, m: ShutdownMethod, token: nat): (e: Sqe)
    ensures e.opcode == OP_SHUTDOWN && e.fd == fd && e.len == ShutdownHow(m)
    ensures e.userData == token
    ensures e.(opcode := 0, fd := 0, len := 0, userData := 0) == ZeroSqe
  {
    ZeroSqe.(opcode := OP_SHUTDOWN, fd := fd, len := ShutdownHow(m), userData := token)
  }

  /**
   * `async_shutdown(method, handler)`: one entry, with a fresh token boxing
   * a post_op, so the handler gets error `-res`.
   */
  method AsyncShutdown(sock: Descriptor, heap: Heap<Block>, m: ShutdownMethod, h: Handler)
    returns (token: nat)
    requires sock.ring.Valid() && heap.Valid()
    modifies sock.ring, sock.ring.sqes, sock.ring.indices, heap
    ensures sock.ring.Valid() && heap.Valid()
    ensures token !in old(heap.live)
    ensures heap.live == old(heap.live)[token := OpBox(PostOp(h))]
    ensures sock.ring.Pushed(ShutdownEntry(sock.fd, m, token))
  {
    token := heap.New(OpBox(PostOp(h)));
    var entry := ShutdownEntry(sock.fd, m, token);
    var _, _ := sock.ring.Submit(_ => entry);
  }
}
