/**
 * The raw storage layer of the container: `RawMemory<T>`, an owning handle to a
 * block of `capacity` slots that holds no live objects of its own, together with
 * the slot-level algorithms of <memory> and <algorithm> that the container runs
 * over such blocks.
 *
 * The element type `T` is concretised to `int`.  A slot is an array cell; whether
 * a slot holds a live element is decided by the container that owns the block
 * (its `size` boundary), not by this layer.
 */
module Memory {

  /** The value of a value-initialised element, `T()` for `T = int`. */
  const ValueInit: int := 0

  class RawMemory {
    /** The block; `null` exactly when the handle owns no storage. */
    var buffer: array?<int>
    var capacity: nat

    /** A handle owns either nothing (null, 0) or a block of exactly `capacity` slots. */
    ghost predicate Valid()
      reads this
    {
      && (buffer == null <==> capacity == 0)
      && (buffer != null ==> buffer.Length == capacity)
    }

    /** The slots of the block, live or not, in order. */
    ghost function Slots(): (s: seq<int>)
      reads this, buffer
      requires Valid()
      ensures |s| == capacity
    {
      if buffer == null then [] else buffer[..]
    }

    /** A request for no slots allocates nothing. */
    static method Allocate(n: nat) returns (block: array?<int>)
      ensures block == null <==> n == 0
      ensures block != null ==> fresh(block) && block.Length == n
    {
      if n != 0 {
        block := new int[n];
      } else {
        block := null;
      }
    }

    /** `RawMemory()`: the empty handle. */
    constructor Empty()
      ensures Valid() && buffer == null && capacity == 0
    {
      buffer := null;
      capacity := 0;
    }

    /** `RawMemory(n)`: a fresh block of exactly `n` uninitialised slots. */
    constructor (n: nat)
      ensures Valid() && capacity == n
      ensures buffer != null ==> fresh(buffer)
    {
      var block := Allocate(n);
      buffer := block;
      capacity := n;
    }

    /** Move construction takes over the block and leaves the source empty. */
    constructor Move(other: RawMemory)
      requires other.Valid()
      modifies other
      ensures Valid() && other.Valid()
      ensures buffer == old(other.buffer) && capacity == old(other.capacity)
      ensures other.buffer == null && other.capacity == 0
    {
      buffer := other.buffer;
      capacity := other.capacity;
      new;
      other.buffer := null;
      other.capacity := 0;
    }

    /**
     * Move assignment takes over `rhs`'s block and leaves `rhs` empty; assigning a
     * handle to itself changes nothing.  The block this handle owned before is
     * dropped without being released.
     */
    method MoveAssign(rhs: RawMemory)
      requires Valid() && rhs.Valid()
      modifies this, rhs
      ensures Valid() && rhs.Valid()
      ensures rhs == this ==> buffer == old(buffer) && capacity == old(capacity)
      ensures rhs != this ==> buffer == old(rhs.buffer) && capacity == old(rhs.capacity)
      ensures rhs != this ==> rhs.buffer == null && rhs.capacity == 0
    {
      if this != rhs {
        buffer := rhs.buffer;
        capacity := rhs.capacity;
        rhs.buffer := null;
        rhs.capacity := 0;
      }
    }

    /** `operator[]`: the slot at `index`, which must lie inside the block. */
    function Get(index: nat): (x: int)
      reads this, buffer
      requires Valid() && index < capacity
      ensures x == Slots()[index]
    {
      buffer[index]
    }

    /** Exchanges blocks and capacities with `other`. */
    method Swap(other: RawMemory)
      requires Valid() && other.Valid()
      modifies this, other
      ensures Valid() && other.Valid()
      ensures buffer == old(other.buffer) && capacity == old(other.capacity)
      ensures other.buffer == old(buffer) && other.capacity == old(capacity)
    {
      var b, c := buffer, capacity;
      buffer, capacity := other.buffer, other.capacity;
      other.buffer, other.capacity := b, c;
    }
  }

  /**
   * `std::uninitialized_copy_n` / `std::uninitialized_move_n` / `std::copy` between two
   * distinct blocks: slots `[to, to + n)` of `dst` receive `src[from..from + n]`, in
   * order; every other slot of `dst` keeps its value.  With `n == 0` either block
   * may be absent.
   */
  method CopyN(src: array?<int>, from: nat, n: nat, dst: array?<int>, to: nat)
    requires n > 0 ==> src != null && dst != null && src != dst
    requires src != null ==> from + n <= src.Length
    requires dst != null ==> to + n <= dst.Length
    modifies dst
    ensures n > 0 ==> dst[to..to + n] == src[from..from + n]
    ensures dst != null ==> dst[..to] == old(dst[..to]) && dst[to + n..] == old(dst[to + n..])
  {
    if n > 0 {
      var i := 0;
      while i < n
        invariant 0 <= i <= n
        invariant forall k :: to <= k < to + i ==> dst[k] == src[k - to + from]
        invariant forall k :: 0 <= k < dst.Length && !(to <= k < to + i) ==> dst[k] == old(dst[k])
      {
        dst[to + i] := src[from + i];
        i := i + 1;
      }
    }
  }

  /**
   * `std::uninitialized_copy` from an input range: slots `[to, to + |items|)` of
   * `dst` receive `items` in order; every other slot keeps its value.
   */
  method CopyRange(items: seq<int>, dst: array?<int>, to: nat)
    requires |items| > 0 ==> dst != null
    requires dst != null ==> to + |items| <= dst.Length
    modifies dst
    ensures |items| > 0 ==> dst[to..to + |items|] == items
    ensures dst != null ==> dst[..to] == old(dst[..to]) && dst[to + |items|..] == old(dst[to + |items|..])
  {
    if |items| > 0 {
      var i := 0;
      while i < |items|
        invariant 0 <= i <= |items|
        invariant forall k :: to <= k < to + i ==> dst[k] == items[k - to]
        invariant forall k :: 0 <= k < dst.Length && !(to <= k < to + i) ==> dst[k] == old(dst[k])
      {
        dst[to + i] := items[i];
        i := i + 1;
      }
    }
  }

  /**
   * `std::uninitialized_value_construct_n`: slots `[from, from + n)` of `a` are
   * value-initialised; every other slot keeps its value.
   */
  method ValueConstructN(a: array?<int>, from: nat, n: nat)
    requires n > 0 ==> a != null
    requires a != null ==> from + n <= a.Length
    modifies a
    ensures n > 0 ==> forall k :: from <= k < from + n ==> a[k] == ValueInit
    ensures a != null ==> a[..from] == old(a[..from]) && a[from + n..] == old(a[from + n..])
  {
    if n > 0 {
      var i := 0;
      while i < n
        invariant 0 <= i <= n
        invariant forall k :: from <= k < from + i ==> a[k] == ValueInit
        invariant forall k :: 0 <= k < a.Length && !(from <= k < from + i) ==> a[k] == old(a[k])
      {
        a[from + i] := ValueInit;
        i := i + 1;
      }
    }
  }

  /**
   * `std::move(first, last, first - 1)`: the slots `[first, last)` move one place
   * down, front to back, to `[first - 1, last - 1)`.  Slot `last - 1` keeps its
   * (moved-from) value and nothing outside `[first - 1, last)` changes.
   */
  method MoveDownByOne(a: array<int>, first: nat, last: nat)
    requires 0 < first <= last <= a.Length
    modifies a
    ensures a[first - 1..last - 1] == old(a[first..last])
    ensures a[..first - 1] == old(a[..first - 1]) && a[last - 1..] == old(a[last - 1..])
  {
    var i := first;
    while i < last
      invariant first <= i <= last
      invariant forall k :: first - 1 <= k < i - 1 ==> a[k] == old(a[k + 1])
      invariant forall k :: 0 <= k < a.Length && !(first - 1 <= k < i - 1) ==> a[k] == old(a[k])
    {
      a[i - 1] := a[i];
      i := i + 1;
    }
  }

  /**
   * `std::move_backward(first, last, last + 1)`: the slots `[first, last)` move one
   * place up, back to front, to `[first + 1, last + 1)`.  Slot `first` keeps its
   * (moved-from) value and nothing outside `[first, last + 1)` changes.
   */
  method MoveUpByOne(a: array<int>, first: nat, last: nat)
    requires first <= last < a.Length
    modifies a
    ensures a[first + 1..last + 1] == old(a[first..last])
    ensures a[..first + 1] == old(a[..first + 1]) && a[last + 1..] == old(a[last + 1..])
  {
    var i := last;
    while i > first
      invariant first <= i <= last
      invariant forall k :: i < k <= last ==> a[k] == old(a[k - 1])
      invariant forall k :: 0 <= k < a.Length && !(i < k <= last) ==> a[k] == old(a[k])
    {
      a[i] := a[i - 1];
      i := i - 1;
    }
  }
}
