/**
 * A file descriptor owned by an object (include/ioring/descriptor.hpp), and
 * the closed set of continuations the core boxes behind operation tokens.
 *
 * The continuation types (post_op, read_op, write_op, close_op, accept_op)
 * are declared beside the async calls that create them; they live here
 * together because close_op and accept_op refer to descriptors, and every
 * adapter module needs to name them.
 */
module Descriptor {
  import opened Uring

  /**
   * What a completion hands to the user's handler. post_op, close_op and
   * accept_op pass one `std::error_code`, read_op and write_op an error code
   * and a byte count. `error` is the code's value: 0 means no error.
   */
  datatype Completion = Status(error: int) | Transfer(error: int, bytes: int)

  /**
   * A user continuation, by identity. `FreeEndpointThen` is the lambda that
   * the two-argument `acceptor::async_accept` wraps around the user's
   * handler: it deletes the endpoint it allocated, then calls the handler.
   */
  datatype Handler =
    | Callback(id: nat)
    | FreeEndpointThen(endpoint: nat, id: nat)

  /** Effects visible outside the core, in the order they happen. */
  datatype Event =
    | Closed(fd: int)                        // ::close(fd)
    | Freed(addr: nat)                       // delete of a heap object
    | Called(id: nat, completion: Completion) // the user's handler runs

  /** The payloads `T` of `wrapped_operation<T>`. */
  datatype Operation =
    | PostOp(handler: Handler)                   // post, async_connect, async_shutdown
    | ReadOp(handler: Handler)                   // async_read_some
    | WriteOp(handler: Handler)                  // async_write_some
    | CloseOp(desc: Descriptor, handler: Handler) // async_close
    | AcceptOp(peer: Descriptor, handler: Handler) // async_accept

  /**
   * What a heap address holds: a boxed operation, or a `generic_endpoint`
   * allocated by the two-argument `async_accept` (its bytes are written by
   * the kernel and are not tracked).
   */
  datatype Block = OpBox(op: Operation) | EndpointBox

  /** The events of invoking handler `h` with completion `c`. */
  function HandlerEvents(h: Handler, c: Completion): (es: seq<Event>)
    ensures |es| >= 1 && es[|es| - 1] == Called(h.id, c)
    ensures h.Callback? ==> es == [Called(h.id, c)]
    ensures h.FreeEndpointThen? ==> es == [Freed(h.endpoint), Called(h.id, c)]
  {
    match h
    case Callback(id) => [Called(id, c)]
    case FreeEndpointThen(ep, id) => [Freed(ep), Called(id, c)]
  }

  /**
   * The `async_close` entry: zeroed, then opcode CLOSE, the descriptor and
   * the token.
   */
  function CloseEntry(fd: int, token: nat): (e: Sqe)
    ensures e.opcode == OP_CLOSE && e.fd == fd && e.userData == token
    ensures e.(opcode := 0, fd := 0, userData := 0) == ZeroSqe
  {
    ZeroSqe.(opcode := OP_CLOSE, fd := fd, userData := token)
  }

  /** close_op's result mapping: the handler gets error `-res`. */
  function CloseCompletion(res: int): (c: Completion)
    ensures c.Status? && c.error == -res
    ensures c.error == 0 <==> res == 0
  {
    Status(-res)
  }

  /** `class descriptor`: a ring it submits to and a descriptor number, -1 when none. */
  class Descriptor {
    const ring: Uring
    var fd: int

    /** `descriptor(uring &)`: holds nothing yet. */
    constructor (ring: Uring)
      ensures this.ring == ring && fd == -1 && !IsOpen()
    {
      this.ring := ring;
      fd := -1;
    }

    /** `is_open()`. */
    predicate IsOpen()
      reads this
      ensures IsOpen() <==> NativeHandle() >= 0
    {
      fd > -1
    }

    /** `native_handle()`. */
    function NativeHandle(): (h: int)
      reads this
      ensures h == fd
    {
      fd
    }

    /**
     * `assign(fd)`: closes the descriptor held before exactly when it was
     * open, then holds `newFd`.
     */
    method Assign(newFd: int) returns (closed: seq<Event>)
      modifies this
      ensures NativeHandle() == newFd
      ensures old(IsOpen()) ==> closed == [Closed(old(fd))]
      ensures !old(IsOpen()) ==> closed == []
    {
      closed := [];
      if fd > -1 {
        closed := [Closed(fd)];
      }
      fd := newFd;
    }

    /** `~descriptor()`: closes the descriptor iff it is open. */
    method Destroy() returns (closed: seq<Event>)
      ensures IsOpen() ==> closed == [Closed(NativeHandle())]
      ensures !IsOpen() ==> closed == []
    {
      closed := [];
      if fd > -1 {
        closed := [Closed(fd)];
      }
    }

    /**
     * `async_close(h)`: one entry submitted, holding a fresh token for a
     * close_op. The descriptor keeps its number until the completion.
     */
    method AsyncClose(heap: Heap<Block>, h: Handler) returns (token: nat)
      requires ring.Valid() && heap.Valid()
      modifies ring, ring.sqes, ring.indices, heap
      ensures ring.Valid() && heap.Valid()
      ensures fd == old(fd)
      ensures token !in old(heap.live)
      ensures heap.live == old(heap.live)[token := OpBox(CloseOp(this, h))]
      ensures ring.Pushed(CloseEntry(old(fd), token))
    {
      token := heap.New(OpBox(CloseOp(this, h)));
      var entry := CloseEntry(fd, token);
      var _, _ := ring.Submit(_ => entry);
    }
  }
}
