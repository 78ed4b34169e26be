/**
 * `post`: a no-op submission whose completion runs a handler
 * (include/ioring/post.hpp). post_op's mapping is also the completion of
 * `async_connect` and `async_shutdown`.
 */
module Post {
  import opened Uring
  import opened Descriptor

  /** The `post` entry: zeroed, then opcode NOP and the token. */
  function PostEntry(token: nat): (e: Sqe)
    ensures e.opcode == OP_NOP && e.userData == token
    ensures e.(userData := 0) == ZeroSqe
  {
    ZeroSqe.(opcode := OP_NOP, userData := token)
  }

  /**
   * `post_op::operator()`: the handler gets error `-res`; a result of 0 is
   * no error, a negative result is the positive error number.
   */
  function PostCompletion(res: int): (c: Completion)
    ensures c.Status? && c.error == -res
    ensures c.error == 0 <==> res == 0
    ensures res < 0 ==> c.error > 0
  {
    Status(-res)
  }

  /**
   * `post(ring, h)`: exactly one NOP entry, holding a fresh token whose box
   * is a post_op for `h`. The handler does not run here; only the token
   * reaches it.
   */
  method Post(ring: Uring, heap: Heap<Block>, h: Handler) returns (token: nat)
    requires ring.Valid() && heap.Valid()
    modifies ring, ring.sqes, ring.indices, heap
    ensures ring.Valid() && heap.Valid()
    ensures token !in old(heap.live)
    ensures heap.live == old(heap.live)[token := OpBox(PostOp(h))]
    ensures ring.Pushed(PostEntry(token))
  {
    token := heap.New(OpBox(PostOp(h)));
    var entry := PostEntry(token);
    var _, _ := ring.Submit(_ => entry);
  }
}
