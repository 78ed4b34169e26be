/**
 * Buffer views: a start address and a length (include/ioring/buffers.hpp).
 * Addresses are abstract naturals; `size_t` and pointer arithmetic are taken
 * as unbounded, which matches the code as long as a view stays inside one
 * object.
 */
module Buffers {

  /** The value a buffer object holds: where it starts and how long it is. */
  datatype View = View(data: nat, size: nat)

  /** One past the last byte the view covers. */
  function End(v: View): nat
  {
    v.data + v.size
  }

  /**
   * The view after `+= n`: `n` is clamped to the size, the start moves by the
   * clamped amount and the size shrinks by it.
   */
  function Consume(v: View, n: nat): (r: View)
    ensures End(r) == End(v)
    ensures r.size <= v.size && v.data <= r.data
    ensures n >= v.size ==> r.size == 0
    ensures n < v.size ==> r.data == v.data + n
  {
    var k := if n > v.size then v.size else n;
    View(v.data + k, v.size - k)
  }

  /** `+= 0` changes nothing. */
  lemma ConsumeZero(v: View)
    ensures Consume(v, 0) == v
  {
  }

  /** Two advances are one advance by the sum, so no step can overshoot the end. */
  lemma ConsumeTwice(v: View, a: nat, b: nat)
    ensures Consume(Consume(v, a), b) == Consume(v, a + b)
  {
  }

  /** `mutable_buffer`. */
  class MutableBuffer {
    var data: nat
    var size: nat

    function Value(): View
      reads this
    {
      View(data, size)
    }

    /** `mutable_buffer(void *data = nullptr, size_t size = 0)`. */
    constructor (data: nat := 0, size: nat := 0)
      ensures this.data == data && this.size == size
    {
      this.data := data;
      this.size := size;
    }

    /** `operator+=(n)`. */
    method Advance(n: nat)
      modifies this
      ensures Value() == Consume(old(Value()), n)
    {
      var k := n;
      if k > size {
        k := size;
      }
      data := data + k;
      size := size - k;
    }
  }

  /** `const_buffer`. */
  class ConstBuffer {
    var data: nat
    var size: nat

    function Value(): View
      reads this
    {
      View(data, size)
    }

    /** `const_buffer(const void *data = 0, size_t size = 0)`. */
    constructor (data: nat := 0, size: nat := 0)
      ensures this.data == data && this.size == size
    {
      this.data := data;
      this.size := size;
    }

    /** `const_buffer(mutable_buffer)`: the same bytes, read-only. */
    constructor FromMutable(b: MutableBuffer)
      ensures Value() == b.Value()
    {
      data := b.data;
      size := b.size;
    }

    /** `operator+=(n)`. */
    method Advance(n: nat)
      modifies this
      ensures Value() == Consume(old(Value()), n)
    {
      var k := n;
      if k > size {
        k := size;
      }
      data := data + k;
      size := size - k;
    }
  }
}
