/**
 * The user side of the submission ring and the heap boxes that stand behind
 * operation tokens (include/ioring/uring.hpp).
 *
 * The ring's shared words (head, tail, flags, the index array and the entry
 * array) are plain sequential fields here: the acquire/release ordering that
 * the code uses to talk to the kernel is not modelled.
 */
module Uring {

  // Opcodes of linux/io_uring.h (enum io_uring_op) used by the reactor.
  const OP_NOP: nat := 0
  const OP_ACCEPT: nat := 13
  const OP_CONNECT: nat := 16
  const OP_CLOSE: nat := 19
  const OP_READ: nat := 22
  const OP_WRITE: nat := 23
  const OP_SHUTDOWN: nat := 34

  /** IORING_SQ_NEED_WAKEUP: the kernel's submission polling thread is asleep. */
  const SQ_NEED_WAKEUP: nat := 1

  /** 2^32: `__u32` arithmetic wraps modulo this. */
  const U32_RANGE: nat := 0x1_0000_0000

  type u32 = x: int | 0 <= x < U32_RANGE

  /** `x + 1` on `__u32`. */
  function Inc32(x: u32): (r: u32)
    ensures x < U32_RANGE - 1 ==> r == x + 1
    ensures x == U32_RANGE - 1 ==> r == 0
  {
    (x + 1) % U32_RANGE
  }

  /** Bitwise `a & b` on non-negative integers; never larger than either operand. */
  function BitAnd(a: nat, b: nat): (r: nat)
    ensures r <= a && r <= b
  {
    if a == 0 || b == 0 then 0 else 2 * BitAnd(a / 2, b / 2) + (a % 2) * (b % 2)
  }

  /** 2^k. */
  function Pow2(k: nat): (p: nat)
    ensures p >= 1
  {
    if k == 0 then 1 else 2 * Pow2(k - 1)
  }

  /** For a ring of 2^k entries, `tail & mask` is the tail modulo the ring size. */
  lemma {:induction false} BitAndLowMask(t: nat, k: nat)
    ensures BitAnd(t, Pow2(k) - 1) == t % Pow2(k)
  {
    if k == 0 {
      assert Pow2(k) == 1;
    } else if t == 0 {
      ModUnique(0, Pow2(k), 0, 0);
    } else {
      var m := Pow2(k - 1);
      var c := Pow2(k) - 1;
      OddMask(m);
      BitAndOddStep(t, c);
      BitAndLowMask(t / 2, k - 1);
      ModOfDouble(t, m);
    }
  }

  /** A mask `2m - 1` halves to `m - 1` and has its low bit set. */
  lemma OddMask(m: nat)
    requires m >= 1
    ensures (2 * m - 1) / 2 == m - 1 && (2 * m - 1) % 2 == 1
  {
  }

  /** One step of `&` against an odd mask keeps the low bit of `t`. */
  lemma BitAndOddStep(t: nat, c: nat)
    requires t > 0 && c % 2 == 1
    ensures BitAnd(t, c) == 2 * BitAnd(t / 2, c / 2) + t % 2
  {
    var lo := t % 2;
    assert lo * 1 == lo;
  }

  /** Splitting off the lowest bit: `t mod 2m` is twice `(t / 2) mod m` plus that bit. */
  lemma ModOfDouble(t: nat, m: nat)
    requires m > 0
    ensures t % (2 * m) == 2 * ((t / 2) % m) + t % 2
  {
    var a, b := t / 2, t % 2;
    var q, r := a / m, a % m;
    assert t == 2 * a + b;
    assert a == m * q + r;
    assert (2 * m) * q == 2 * (m * q);
    assert t == (2 * m) * q + (2 * r + b);
    ModUnique(t, 2 * m, q, 2 * r + b);
  }

  lemma ModUnique(t: nat, d: nat, q: nat, r: nat)
    requires d > 0 && t == d * q + r && r < d
    ensures t % d == r
  {
    var x := t / d - q;
    assert d * x == r - t % d;
  }

  /**
   * One submission queue entry (struct io_uring_sqe), field by field, in
   * memory order. Pointer-valued fields hold abstract addresses.
   */
  datatype Sqe = Sqe(
    opcode: nat,       // __u8, byte 0
    flags: nat,        // __u8, byte 1
    ioprio: nat,       // __u16, bytes 2..3
    fd: int,           // __s32, bytes 4..7
    off: nat,          // __u64, bytes 8..15; the same storage as `addr2`
    addr: nat,         // __u64, bytes 16..23
    len: nat,          // __u32, bytes 24..27
    opFlags: nat,      // __u32, bytes 28..31 (rw_flags, msg_flags, ...)
    userData: nat,     // __u64, bytes 32..39
    bufIndex: nat,     // __u16, bytes 40..41
    personality: nat,  // __u16, bytes 42..43
    spliceFdIn: int    // __s32, bytes 44..47; bytes 48..63 are padding
  )

  /** An entry after `memset(sqe, 0, sizeof(*sqe))`. */
  const ZeroSqe: Sqe := Sqe(0, 0, 0, 0, 0, 0, 0, 0, 0, 0, 0, 0)

  /** The slot a tail value names: `tail & mask`, never beyond the mask. */
  function Slot(tail: u32, mask: u32): (i: u32)
    ensures i <= mask
  {
    BitAnd(tail, mask)
  }

  /** A slot is the tail modulo the ring size when the ring has 2^k entries. */
  lemma SlotIsTailModulo(tail: u32, k: nat)
    requires Pow2(k) <= U32_RANGE
    ensures Slot(tail, Pow2(k) - 1) == tail % Pow2(k)
  {
    BitAndLowMask(tail, k);
  }

  /**
   * Entries published and not yet consumed: the `__u32` distance from the
   * head to the tail; `n` more entries after the head reach the tail.
   */
  function InFlight(head: u32, tail: u32): (n: u32)
    ensures (head + n) % U32_RANGE == tail
  {
    if tail >= head then tail - head else tail + U32_RANGE - head
  }

  /** `submit`'s full test, as written: `tail + 1 == head`. */
  predicate FullAsWritten(head: u32, tail: u32)
  {
    Inc32(tail) == head
  }

  /**
   * The test fires only when 2^32 - 1 entries are in flight, which no
   * ring holds: a ring of `entries` slots is full at `entries`.
   */
  lemma FullAsWrittenNeeds(head: u32, tail: u32)
    ensures FullAsWritten(head, tail) <==> InFlight(head, tail) == U32_RANGE - 1
  {
  }

  /**
   * A full two-slot ring (head 0, tail 2): the test as written does not
   * fire, and slot 0, not yet consumed, is written over.
   */
  lemma FullTestMissesFullRing()
    ensures InFlight(0, 2) == 2 && !FullAsWritten(0, 2)
    ensures Slot(0, 1) == Slot(2, 1) == 0
  {
  }

  /** The evidently intended full test: as many entries in flight as the ring has slots. */
  predicate Full(head: u32, tail: u32, mask: u32)
  {
    InFlight(head, tail) == mask + 1
  }

  /**
   * Waiting whenever `Full` holds keeps a ring within its capacity: one
   * more entry after a test that did not fire never exceeds the slots.
   */
  lemma FullKeepsCapacity(head: u32, tail: u32, mask: u32)
    requires mask + 1 < U32_RANGE
    requires InFlight(head, tail) <= mask + 1 && !Full(head, tail, mask)
    ensures InFlight(head, Inc32(tail)) <= mask + 1
    ensures InFlight(head, Inc32(tail)) == InFlight(head, tail) + 1
  {
  }

  /**
   * The submission ring as the producer sees it (struct sq_ring plus the
   * `pending_` counter of class uring).
   */
  class Uring {
    /** `*sqring_.head`: the kernel's consumer position. */
    var head: u32
    /** `*sqring_.tail`: the producer position, wrapping modulo 2^32. */
    var tail: u32
    /** `*sqring_.ring_mask`. */
    const mask: u32
    /** `*sqring_.flags`, written by the kernel. */
    var flags: u32
    /** `sqring_.array`: the indirection from ring position to entry index. */
    const indices: array<u32>
    /** `sqring_.sqes`: the entries themselves. */
    const sqes: array<Sqe>
    /** `pending_`: operations submitted and not yet completed. */
    var pending: u32
    /** Every entry published so far, in submission order. */
    ghost var submitted: seq<Sqe>

    ghost predicate Valid()
      reads this
    {
      sqes.Length == mask + 1 && indices.Length == mask + 1
    }

    /**
     * Freshly mapped rings: the setup and mmap system calls are not part of
     * this model, the mapped memory is zero.
     */
    constructor Mapped(mask: u32)
      ensures Valid()
      ensures this.mask == mask && head == 0 && tail == 0 && flags == 0 && pending == 0
      ensures fresh(sqes) && fresh(indices) && submitted == []
      ensures forall i :: 0 <= i < sqes.Length ==> sqes[i] == ZeroSqe
    {
      this.mask := mask;
      head, tail, flags, pending := 0, 0, 0, 0;
      sqes := new Sqe[mask + 1](_ => ZeroSqe);
      indices := new u32[mask + 1](_ => 0);
      submitted := [];
    }

    /**
     * What one call of `submit` leaves behind when the fill wrote `e`: `e`
     * in slot `old(tail) & mask` and nowhere else, that slot's index in the
     * index array, the tail and the pending count one further (modulo 2^32),
     * the kernel-owned head and flags untouched.
     */
    twostate predicate Pushed(e: Sqe)
      reads this, sqes, indices
    {
      var i := Slot(old(tail), mask);
      && i < sqes.Length && i < indices.Length
      && sqes[..] == old(sqes[..])[i := e]
      && indices[..] == old(indices[..])[i := i]
      && tail == Inc32(old(tail))
      && head == old(head) && flags == old(flags)
      && pending == Inc32(old(pending))
      && submitted == old(submitted) + [e]
    }

    /**
     * `uring::submit(f)`. The fill `f` gets the entry in the chosen slot
     * and returns it filled in. `waited` says whether `wait()` was called
     * (the full test `tail + 1 == head`), `wokeUp` whether `wakeup()` was
     * called after the new tail was published. Both are system calls whose
     * bodies are not part of this model; in particular `wait()` changes
     * nothing here, and the slot is the one named by the tail read before it.
     */
    method Submit(fill: Sqe -> Sqe) returns (waited: bool, wokeUp: bool)
      requires Valid()
      modifies this, sqes, indices
      ensures Valid()
      ensures waited == FullAsWritten(old(head), old(tail))
      ensures Pushed(fill(old(sqes[Slot(tail, mask)])))
      ensures wokeUp == (BitAnd(flags, SQ_NEED_WAKEUP) != 0)
    {
      var t := tail;
      waited := Inc32(t) == head;
      // When `waited`, the code calls wait() here and then goes on with `t`.
      var index := Slot(t, mask);
      sqes[index] := fill(sqes[index]);
      indices[index] := index;
      t := Inc32(t);
      pending := Inc32(pending);
      tail := t;
      submitted := submitted + [sqes[index]];
      wokeUp := BitAnd(flags, SQ_NEED_WAKEUP) != 0;
    }
  }

  /**
   * The heap as `new` and `delete` use it for the boxes of
   * `wrapped_operation<T>` and for other objects the core allocates. An
   * address is a positive integer; an operation's token is its box's address.
   */
  class Heap<T> {
    /** The live allocations and what each holds. */
    var live: map<nat, T>
    /** Allocation cursor: every live address is below it. */
    var next: nat

    ghost predicate Valid()
      reads this
    {
      0 < next && forall a :: a in live ==> 0 < a < next
    }

    constructor ()
      ensures Valid() && live == map[]
    {
      live := map[];
      next := 1;
    }

    /**
     * `new`: a fresh, non-null address, distinct from every live one, now
     * holding `v`. `wrapped_operation<T>::create` is this call with the
     * payload, returning the address as the token.
     */
    method New(v: T) returns (addr: nat)
      requires Valid()
      modifies this
      ensures Valid()
      ensures addr != 0 && addr !in old(live)
      ensures live == old(live)[addr := v]
    {
      addr := next;
      live := live[addr := v];
      next := next + 1;
    }

    /**
     * `delete` of a live address, handing back what it held: in
     * `wrapped_operation<T>::do_complete` the payload is moved out and the
     * box freed before the payload runs.
     */
    method Delete(addr: nat) returns (v: T)
      requires Valid() && addr in live
      modifies this
      ensures Valid()
      ensures v == old(live[addr])
      ensures live == old(live) - {addr} && addr !in live
    {
      v := live[addr];
      live := live - {addr};
    }
  }
}
