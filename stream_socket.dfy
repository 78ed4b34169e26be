/**
 * Connect, read and write on a stream socket (include/ioring/stream_socket.hpp).
 * The socket, bind and endpoint system calls are not part of this model.
 */
module StreamSocket {
  import opened Uring
  import opened Descriptor
  import opened Buffers

  /** `sqe->len = buffer.size()`: the `size_t` length truncated to `__u32`. */
  function Len32(size: nat): (n: nat)
    ensures n < U32_RANGE
    ensures size < U32_RANGE ==> n == size
    ensures (size - n) % U32_RANGE == 0
  {
    size % U32_RANGE
  }

  /**
   * The `async_read_some` entry: zeroed, then opcode READ, the socket, the
   * buffer's start and (truncated) size, offset 0 and the token.
   */
  function ReadEntry(fd: int, buffer: View, token: nat): (e: Sqe)
    ensures e.opcode == OP_READ && e.fd == fd && e.addr == buffer.data
    ensures e.len == Len32(buffer.size) && e.off == 0 && e.userData == token
    ensures e.(opcode := 0, fd := 0, addr := 0, len := 0, userData := 0) == ZeroSqe
  {
    ZeroSqe.(opcode := OP_READ, fd := fd, addr := buffer.data, len := Len32(buffer.size),
             off := 0, userData := token)
  }

  /**
   * The `async_write_some` entry: zeroed, then opcode WRITE, the socket, the
   * buffer's start and (truncated) size and the token.
   */
  function WriteEntry(fd: int, buffer: View, token: nat): (e: Sqe)
    ensures e.opcode == OP_WRITE && e.fd == fd && e.addr == buffer.data
    ensures e.len == Len32(buffer.size) && e.userData == token
    ensures e.(opcode := 0, fd := 0, addr := 0, len := 0, userData := 0) == ZeroSqe
  {
    ZeroSqe.(opcode := OP_WRITE, fd := fd, addr := buffer.data, len := Len32(buffer.size),
             userData := token)
  }

  /**
   * read_op and write_op: a negative result is error `-res` with count 0,
   * any other result is no error with count `res`.
   */
  function TransferCompletion(res: int): (c: Completion)
    ensures c.Transfer?
    ensures res < 0 ==> c.error == -res && c.error > 0 && c.bytes == 0
    ensures res >= 0 ==> c.error == 0 && c.bytes == res
  {
    if res < 0 then Transfer(-res, 0) else Transfer(0, res)
  }

  /** The result a transfer completion was made from. */
  function TransferResult(c: Completion): int
    requires c.Transfer?
  {
    if c.error != 0 then -c.error else c.bytes
  }

  /** Nothing of the kernel's result is lost: it can be read back from the completion. */
  lemma TransferCompletionRoundTrip(res: int)
    ensures TransferResult(TransferCompletion(res)) == res
  {
  }

  /**
   * The connect entry as the code fills it: `memset(sqe, 0, sizeof(sqe))`
   * clears only as many bytes as a pointer has (8), which are opcode, flags,
   * ioprio and fd; every later field keeps what the slot held before, except
   * addr, off and user_data, which are set.
   */
  function ConnectEntryAsWritten(slot: Sqe, fd: int, endpoint: nat, endpointLen: nat, token: nat): (e: Sqe)
    ensures e.opcode == OP_CONNECT && e.flags == 0 && e.ioprio == 0 && e.fd == fd
    ensures e.addr == endpoint && e.off == endpointLen && e.userData == token
    ensures e.len == slot.len && e.opFlags == slot.opFlags && e.bufIndex == slot.bufIndex
    ensures e.personality == slot.personality && e.spliceFdIn == slot.spliceFdIn
  {
    slot.(opcode := 0, flags := 0, ioprio := 0, fd := 0)
        .(opcode := OP_CONNECT, fd := fd, addr := endpoint, off := endpointLen, userData := token)
  }

  /**
   * The connect entry as the other adapters fill theirs, with the whole
   * entry zeroed first: only opcode, fd, addr, off and user_data are set.
   */
  function ConnectEntry(fd: int, endpoint: nat, endpointLen: nat, token: nat): (e: Sqe)
    ensures e.opcode == OP_CONNECT && e.fd == fd && e.addr == endpoint
    ensures e.off == endpointLen && e.userData == token
    ensures e.(opcode := 0, fd := 0, addr := 0, off := 0, userData := 0) == ZeroSqe
  {
    ZeroSqe.(opcode := OP_CONNECT, fd := fd, addr := endpoint, off := endpointLen, userData := token)
  }

  /**
   * The partial clear leaves a slot's earlier contents behind: a slot last
   * used by a 4096-byte read yields a connect entry whose `len` is 4096,
   * where the fully zeroed entry has 0.
   */
  lemma ConnectInheritsStaleLength()
    ensures var stale := ReadEntry(3, View(0x1000, 4096), 7);
      && ConnectEntryAsWritten(stale, 4, 0x2000, 16, 8).len == 4096
      && ConnectEntry(4, 0x2000, 16, 8).len == 0
  {
  }

  /** On a slot that is already all zero the two fills agree. */
  lemma ConnectEntryOnZeroSlot(fd: int, endpoint: nat, endpointLen: nat, token: nat)
    ensures ConnectEntryAsWritten(ZeroSqe, fd, endpoint, endpointLen, token)
         == ConnectEntry(fd, endpoint, endpointLen, token)
  {
  }

  /**
   * `async_connect(endpoint, handler)`: one entry, filled over what the
   * slot held, with a fresh token boxing a post_op. The endpoint is given
   * by the address of its storage and its length.
   */
  method AsyncConnect(sock: Descriptor, heap: Heap<Block>, endpoint: nat, endpointLen: nat, h: Handler)
    returns (token: nat)
    requires sock.ring.Valid() && heap.Valid()
    modifies sock.ring, sock.ring.sqes, sock.ring.indices, heap
    ensures sock.ring.Valid() && heap.Valid()
    ensures token !in old(heap.live)
    ensures heap.live == old(heap.live)[token := OpBox(PostOp(h))]
    ensures var slot := old(sock.ring.sqes[Slot(sock.ring.tail, sock.ring.mask)]);
      sock.ring.Pushed(ConnectEntryAsWritten(slot, sock.fd, endpoint, endpointLen, token))
  {
    token := heap.New(OpBox(PostOp(h)));
    var fd, t := sock.fd, token;
    var _, _ := sock.ring.Submit(slot => ConnectEntryAsWritten(slot, fd, endpoint, endpointLen, t));
  }

  /**
   * `async_read_some(buffer, handler)`: one READ entry for the buffer, with
   * a fresh token boxing a read_op.
   */
  method AsyncReadSome(sock: Descriptor, heap: Heap<Block>, buffer: MutableBuffer, h: Handler)
    returns (token: nat)
    requires sock.ring.Valid() && heap.Valid()
    modifies sock.ring, sock.ring.sqes, sock.ring.indices, heap
    ensures sock.ring.Valid() && heap.Valid()
    ensures token !in old(heap.live)
    ensures heap.live == old(heap.live)[token := OpBox(ReadOp(h))]
    ensures sock.ring.Pushed(ReadEntry(sock.fd, buffer.Value(), token))
  {
    token := heap.New(OpBox(ReadOp(h)));
    var entry := ReadEntry(sock.fd, buffer.Value(), token);
    var _, _ := sock.ring.Submit(_ => entry);
  }

  /**
   * `async_write_some(buffer, handler)`: one WRITE entry for the buffer,
   * with a fresh token boxing a write_op.
   */
  method AsyncWriteSome(sock: Descriptor, heap: Heap<Block>, buffer: ConstBuffer, h: Handler)
    returns (token: nat)
    requires sock.ring.Valid() && heap.Valid()
    modifies sock.ring, sock.ring.sqes, sock.ring.indices, heap
    ensures sock.ring.Valid() && heap.Valid()
    ensures token !in old(heap.live)
    ensures heap.live == old(heap.live)[token := OpBox(WriteOp(h))]
    ensures sock.ring.Pushed(WriteEntry(sock.fd, buffer.Value(), token))
  {
    token := heap.New(OpBox(WriteOp(h)));
    var entry := WriteEntry(sock.fd, buffer.Value(), token);
    var _, _ := sock.ring.Submit(_ => entry);
  }
}
