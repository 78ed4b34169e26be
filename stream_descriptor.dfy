/**
 * Read and write on a plain descriptor such as a dup of stdin or stdout
 * (include/ioring/stream_descriptor.hpp). The entries and the completion
 * mapping are those of stream sockets, except that the read entry leaves
 * `off` at the zero the clear gave it instead of setting it.
 */
module StreamDescriptor {
  import opened Uring
  import opened Descriptor
  import opened Buffers
  import StreamSocket

  /**
   * `async_read_some(buffer, handler)`: one READ entry for the buffer
   * (offset 0 from the clear), with a fresh token boxing a read_op.
   */
  method AsyncReadSome(desc: Descriptor, heap: Heap<Block>, buffer: MutableBuffer, h: Handler)
    returns (token: nat)
    requires desc.ring.Valid() && heap.Valid()
    modifies desc.ring, desc.ring.sqes, desc.ring.indices, heap
    ensures desc.ring.Valid() && heap.Valid()
    ensures token !in old(heap.live)
    ensures heap.live == old(heap.live)[token := OpBox(ReadOp(h))]
    ensures desc.ring.Pushed(StreamSocket.ReadEntry(desc.fd, buffer.Value(), token))
  {
    token := heap.New(OpBox(ReadOp(h)));
    var entry := ZeroSqe.(opcode := OP_READ, fd := desc.fd, addr := buffer.data,
                          len := StreamSocket.Len32(buffer.size), userData := token);
    var _, _ := desc.ring.Submit(_ => entry);
  }

  /**
   * `async_write_some(buffer, handler)`: one WRITE entry for the buffer,
   * with a fresh token boxing a write_op.
   */
  method AsyncWriteSome(desc: Descriptor, heap: Heap<Block>, buffer: ConstBuffer, h: Handler)
    returns (token: nat)
    requires desc.ring.Valid() && heap.Valid()
    modifies desc.ring, desc.ring.sqes, desc.ring.indices, heap
    ensures desc.ring.Valid() && heap.Valid()
    ensures token !in old(heap.live)
    ensures heap.live == old(heap.live)[token := OpBox(WriteOp(h))]
    ensures desc.ring.Pushed(StreamSocket.WriteEntry(desc.fd, buffer.Value(), token))
  {
    token := heap.New(OpBox(WriteOp(h)));
    var entry := ZeroSqe.(opcode := OP_WRITE, fd := desc.fd, addr := buffer.data,
                          len := StreamSocket.Len32(buffer.size), userData := token);
    var _, _ := desc.ring.Submit(_ => entry);
  }
}
