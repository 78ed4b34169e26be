/**
 * Accepting connections (include/ioring/acceptor.hpp). The listen system
 * call is not part of this model.
 */
module Acceptor {
  import opened Uring
  import opened Descriptor
  import SocketBase

  /**
   * Offset of the length field in either endpoint type: both hold a
   * `sockaddr_storage` followed by a `socklen_t`.
   */
  const LENGTH_FIELD_OFFSET: nat := SocketBase.SOCKADDR_STORAGE_SIZE

  /**
   * The accept entry: zeroed, then opcode ACCEPT, the listening socket, the
   * address of the endpoint's storage in `addr` and the address of its
   * length field in `addr2` (the field the model calls `off`).
   */
  function AcceptEntry(fd: int, endpoint: nat, token: nat): (e: Sqe)
    ensures e.opcode == OP_ACCEPT && e.fd == fd && e.addr == endpoint
    ensures e.off == endpoint + LENGTH_FIELD_OFFSET && e.userData == token
    ensures e.(opcode := 0, fd := 0, addr := 0, off := 0, userData := 0) == ZeroSqe
  {
    ZeroSqe.(opcode := OP_ACCEPT, fd := fd, addr := endpoint,
             off := endpoint + LENGTH_FIELD_OFFSET, userData := token)
  }

  /**
   * accept_op's result mapping: a negative result is error `-res`, any other
   * result (the new connection's descriptor) is no error.
   */
  function AcceptCompletion(res: int): (c: Completion)
    ensures c.Status?
    ensures res < 0 ==> c.error == -res && c.error > 0
    ensures res >= 0 ==> c.error == 0
  {
    if res < 0 then Status(-res) else Status(0)
  }

  /**
   * `async_accept(peer, endpoint, handler)`: one ACCEPT entry, with a fresh
   * token boxing an accept_op for `peer`. Neither socket changes here.
   */
  method AsyncAccept(listener: Descriptor, peer: Descriptor, endpoint: nat, heap: Heap<Block>,
                     h: Handler)
    returns (token: nat)
    requires listener.ring.Valid() && heap.Valid()
    modifies listener.ring, listener.ring.sqes, listener.ring.indices, heap
    ensures listener.ring.Valid() && heap.Valid()
    ensures listener.fd == old(listener.fd) && peer.fd == old(peer.fd)
    ensures token !in old(heap.live)
    ensures heap.live == old(heap.live)[token := OpBox(AcceptOp(peer, h))]
    ensures listener.ring.Pushed(AcceptEntry(listener.fd, endpoint, token))
  {
    token := heap.New(OpBox(AcceptOp(peer, h)));
    var entry := AcceptEntry(listener.fd, endpoint, token);
    var _, _ := listener.ring.Submit(_ => entry);
  }

  /**
   * `async_accept(peer, handler)`: allocates one `generic_endpoint`, accepts
   * into it, and wraps the handler in a lambda that deletes the endpoint
   * before calling the user's handler `id`.
   */
  method AsyncAcceptNewEndpoint(listener: Descriptor, peer: Descriptor, heap: Heap<Block>, id: nat)
    returns (endpoint: nat, token: nat)
    requires listener.ring.Valid() && heap.Valid()
    modifies listener.ring, listener.ring.sqes, listener.ring.indices, heap
    ensures listener.ring.Valid() && heap.Valid()
    ensures listener.fd == old(listener.fd) && peer.fd == old(peer.fd)
    ensures endpoint !in old(heap.live) && token !in old(heap.live) && endpoint != token
    ensures heap.live == old(heap.live)[endpoint := EndpointBox]
                                       [token := OpBox(AcceptOp(peer, FreeEndpointThen(endpoint, id)))]
    ensures listener.ring.Pushed(AcceptEntry(listener.fd, endpoint, token))
  {
    endpoint := heap.New(EndpointBox);
    token := AsyncAccept(listener, peer, endpoint, heap, FreeEndpointThen(endpoint, id));
  }
}
