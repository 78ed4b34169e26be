/**
 * Completion of one operation: `wrapped_operation<T>::do_complete` followed
 * by the payload's `operator()` (include/ioring/uring.hpp and the payload
 * types of the adapter headers). Draining the completion ring is done by
 * `uring::complete`, whose body is not part of this model; this module
 * starts from one completion entry it hands over.
 */
module Dispatch {
  import opened Uring
  import opened Descriptor
  import Post
  import StreamSocket
  import Acceptor

  /** A completion queue entry: the token copied from the submission and the signed result. */
  datatype Cqe = Cqe(userData: nat, res: int)

  /** Payloads that change a descriptor when they run. */
  predicate HasTarget(op: Operation)
  {
    op.CloseOp? || op.AcceptOp?
  }

  /** The descriptor such a payload changes: close_op's own, accept_op's peer. */
  function Target(op: Operation): Descriptor
    requires HasTarget(op)
  {
    if op.CloseOp? then op.desc else op.peer
  }

  /** The descriptors a payload may change. */
  function Targets(op: Operation): set<Descriptor>
  {
    if HasTarget(op) then {Target(op)} else {}
  }

  /** The heap objects a handler deletes. */
  function Frees(h: Handler): set<nat>
  {
    if h.FreeEndpointThen? then {h.endpoint} else {}
  }

  /** A handler may run only when the endpoint it deletes is still allocated. */
  predicate CanRun(live: map<nat, Block>, h: Handler)
  {
    h.FreeEndpointThen? ==> h.endpoint in live && live[h.endpoint] == EndpointBox
  }

  /** What running a payload does: the events in order, and the target's descriptor afterwards. */
  datatype Effect = Effect(events: seq<Event>, fd: int)

  /** The completion a payload hands to its handler for result `res`. */
  function CompletionOf(op: Operation, res: int): (c: Completion)
    ensures c.Transfer? <==> op.ReadOp? || op.WriteOp?
    ensures res < 0 ==> c.error == -res
    ensures c.error == 0 <==> if op.PostOp? || op.CloseOp? then res == 0 else res >= 0
    ensures c.Transfer? ==> c.bytes == if res < 0 then 0 else res
  {
    match op
    case PostOp(_) => Post.PostCompletion(res)
    case ReadOp(_) => StreamSocket.TransferCompletion(res)
    case WriteOp(_) => StreamSocket.TransferCompletion(res)
    case CloseOp(_, _) => CloseCompletion(res)
    case AcceptOp(_, _) => Acceptor.AcceptCompletion(res)
  }

  /**
   * The payload's `operator()` on result `res`, when its target holds `fd`
   * (ignored by payloads without a target).
   */
  function Run(op: Operation, res: int, fd: int): (e: Effect)
    ensures |e.events| >= 1 && e.events[|e.events| - 1] == Called(op.handler.id, CompletionOf(op, res))
    ensures e.events[0].Closed? <==> op.AcceptOp? && res >= 0 && fd > -1
    ensures op.CloseOp? ==> e.fd == -1
    ensures op.AcceptOp? ==> e.fd == if res < 0 then fd else res
    ensures !HasTarget(op) ==> e.fd == fd
  {
    var called := HandlerEvents(op.handler, CompletionOf(op, res));
    match op
    case CloseOp(_, _) => Effect(called, -1)
    case AcceptOp(_, _) =>
      if res < 0 then Effect(called, fd)
      else if fd > -1 then Effect([Closed(fd)] + called, res)
      else Effect(called, res)
    case _ => Effect(called, fd)
  }

  /** Invoking a handler: the wrapper lambda of the two-argument accept deletes its endpoint first. */
  method Invoke(heap: Heap<Block>, h: Handler, c: Completion) returns (events: seq<Event>)
    requires heap.Valid() && CanRun(heap.live, h)
    modifies heap
    ensures heap.Valid()
    ensures heap.live == old(heap.live) - Frees(h)
    ensures events == HandlerEvents(h, c)
  {
    match h
    case Callback(id) =>
      events := [Called(id, c)];
    case FreeEndpointThen(ep, id) =>
      var _ := heap.Delete(ep);
      events := [Freed(ep), Called(id, c)];
  }

  /**
   * `do_complete(cqe)` and the payload's `operator()`: the box named by the
   * token is taken apart and freed, then the payload runs once with the
   * result. Afterwards the token is no longer live.
   */
  method Complete(heap: Heap<Block>, cqe: Cqe) returns (events: seq<Event>)
    requires heap.Valid() && cqe.userData in heap.live && heap.live[cqe.userData].OpBox?
    requires CanRun(heap.live, heap.live[cqe.userData].op.handler)
    modifies heap, Targets(heap.live[cqe.userData].op)
    ensures heap.Valid()
    ensures var op := old(heap.live[cqe.userData]).op;
      && cqe.userData !in heap.live
      && heap.live == old(heap.live) - {cqe.userData} - Frees(op.handler)
      && (HasTarget(op) ==>
            var r := Run(op, cqe.res, old(Target(op).fd));
            events == [Freed(cqe.userData)] + r.events && Target(op).fd == r.fd)
      && (!HasTarget(op) ==> events == [Freed(cqe.userData)] + Run(op, cqe.res, -1).events)
  {
    var box := heap.Delete(cqe.userData);
    events := [Freed(cqe.userData)];
    assert CanRun(heap.live, box.op.handler);
    match box.op
    case PostOp(h) =>
      var called := Invoke(heap, h, Post.PostCompletion(cqe.res));
      events := events + called;
    case ReadOp(h) =>
      var called := Invoke(heap, h, StreamSocket.TransferCompletion(cqe.res));
      events := events + called;
    case WriteOp(h) =>
      var called := Invoke(heap, h, StreamSocket.TransferCompletion(cqe.res));
      events := events + called;
    case CloseOp(d, h) =>
      d.fd := -1;
      var called := Invoke(heap, h, CloseCompletion(cqe.res));
      events := events + called;
    case AcceptOp(peer, h) =>
      if cqe.res < 0 {
        var called := Invoke(heap, h, Acceptor.AcceptCompletion(cqe.res));
        events := events + called;
      } else {
        var closed := peer.Assign(cqe.res);
        var called := Invoke(heap, h, Acceptor.AcceptCompletion(cqe.res));
        events := events + (closed + called);
      }
  }

  /** How many times `e` occurs in `es`. */
  function Occurrences(es: seq<Event>, e: Event): nat
  {
    if es == [] then 0 else (if es[0] == e then 1 else 0) + Occurrences(es[1..], e)
  }

  /** How many handler calls `es` holds. */
  function Calls(es: seq<Event>): nat
  {
    if es == [] then 0 else (if es[0].Called? then 1 else 0) + Calls(es[1..])
  }

  lemma {:induction false} CountsOfConcat(a: seq<Event>, b: seq<Event>, e: Event)
    ensures Occurrences(a + b, e) == Occurrences(a, e) + Occurrences(b, e)
    ensures Calls(a + b) == Calls(a) + Calls(b)
  {
    if a == [] {
      assert a + b == b;
    } else {
      assert (a + b)[0] == a[0];
      assert (a + b)[1..] == a[1..] + b;
      CountsOfConcat(a[1..], b, e);
    }
  }

  lemma CountsOfSingle(x: Event, e: Event)
    ensures Occurrences([x], e) == (if x == e then 1 else 0)
    ensures Calls([x]) == (if x.Called? then 1 else 0)
  {
    assert [x][1..] == [];
  }

  /** A handler's invocation holds one call, and deletes its endpoint once. */
  lemma HandlerEventsCounts(h: Handler, c: Completion)
    ensures Calls(HandlerEvents(h, c)) == 1
    ensures h.FreeEndpointThen? ==> Occurrences(HandlerEvents(h, c), Freed(h.endpoint)) == 1
  {
    CountsOfSingle(Called(h.id, c), Called(h.id, c));
    if h.FreeEndpointThen? {
      CountsOfSingle(Freed(h.endpoint), Freed(h.endpoint));
      CountsOfSingle(Called(h.id, c), Freed(h.endpoint));
      assert HandlerEvents(h, c) == [Freed(h.endpoint)] + [Called(h.id, c)];
      CountsOfConcat([Freed(h.endpoint)], [Called(h.id, c)], Freed(h.endpoint));
    }
  }

  /**
   * Every payload calls its user's handler exactly once, as its last
   * effect, with the handler's own identity.
   */
  lemma {:induction false} HandlerRunsOnce(op: Operation, res: int, fd: int)
    ensures var es := Run(op, res, fd).events;
      && Calls(es) == 1
      && es[|es| - 1] == Called(op.handler.id, CompletionOf(op, res))
  {
    var called := HandlerEvents(op.handler, CompletionOf(op, res));
    HandlerEventsCounts(op.handler, CompletionOf(op, res));
    if op.AcceptOp? && res >= 0 && fd > -1 {
      assert Run(op, res, fd).events == [Closed(fd)] + called;
      CountsOfSingle(Closed(fd), Closed(fd));
      CountsOfConcat([Closed(fd)], called, Closed(fd));
    } else {
      assert Run(op, res, fd).events == called;
    }
  }

  /**
   * The whole completion of token `t`: its box is freed first, and only
   * then does the payload run; the user's handler is called once, last.
   */
  lemma {:induction false} BoxFreedBeforePayload(op: Operation, t: nat, res: int, fd: int)
    ensures var es := [Freed(t)] + Run(op, res, fd).events;
      && |es| >= 2
      && es[0] == Freed(t)
      && Calls(es) == 1
      && es[|es| - 1] == Called(op.handler.id, CompletionOf(op, res))
  {
    HandlerRunsOnce(op, res, fd);
    CountsOfSingle(Freed(t), Freed(t));
    CountsOfConcat([Freed(t)], Run(op, res, fd).events, Freed(t));
  }

  /**
   * The endpoint that the two-argument `async_accept` allocated is deleted
   * exactly once, immediately before the user's handler runs.
   */
  lemma {:induction false} EndpointFreedOnceBeforeHandler(peer: Descriptor, ep: nat, id: nat, res: int, fd: int)
    ensures var es := Run(AcceptOp(peer, FreeEndpointThen(ep, id)), res, fd).events;
      && |es| >= 2
      && Occurrences(es, Freed(ep)) == 1
      && es[|es| - 2] == Freed(ep)
      && es[|es| - 1] == Called(id, Acceptor.AcceptCompletion(res))
  {
    var h := FreeEndpointThen(ep, id);
    var called := HandlerEvents(h, Acceptor.AcceptCompletion(res));
    HandlerEventsCounts(h, Acceptor.AcceptCompletion(res));
    if res >= 0 && fd > -1 {
      assert Run(AcceptOp(peer, h), res, fd).events == [Closed(fd)] + called;
      CountsOfSingle(Closed(fd), Freed(ep));
      CountsOfConcat([Closed(fd)], called, Freed(ep));
    } else {
      assert Run(AcceptOp(peer, h), res, fd).events == called;
    }
  }

  /** close_op leaves the descriptor closed, success or not, and reports `-res`. */
  lemma CloseAlwaysReleases(d: Descriptor, h: Handler, res: int, fd: int)
    ensures Run(CloseOp(d, h), res, fd).fd == -1
    ensures Run(CloseOp(d, h), res, fd).events == HandlerEvents(h, Status(-res))
  {
  }

  /**
   * accept_op: a failure leaves the peer as it was and closes nothing; a
   * success makes the peer hold the new descriptor, closing the old one
   * exactly when it was open.
   */
  lemma AcceptAssignsPeer(peer: Descriptor, h: Handler, res: int, fd: int)
    ensures var r := Run(AcceptOp(peer, h), res, fd);
      && (res < 0 ==> r.fd == fd && r.events == HandlerEvents(h, Status(-res)))
      && (res >= 0 && fd > -1 ==> r.fd == res && r.events == [Closed(fd)] + HandlerEvents(h, Status(0)))
      && (res >= 0 && fd <= -1 ==> r.fd == res && r.events == HandlerEvents(h, Status(0)))
  {
  }
}
