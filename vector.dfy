/**
 * `Vector<T>` with `T = int`: a growable array whose live elements occupy slots
 * `[0, size)` of a `RawMemory` block.  Every method states its new elements and
 * capacity as functions of the old ones, most through the value functions of
 * `VectorSpec`; the comparison operators at the end compare the element
 * sequences of two vectors.
 */
module Vectors {
  import opened Memory
  import opened VectorSpec
  import opened Lexicographic

  class Vector {
    /**
     * The storage handle.  It is the same handle for the vector's whole life:
     * every reallocation builds a new block in a temporary handle and swaps the
     * blocks, so only the handle's fields change.
     */
    const data: RawMemory
    /** The number of live elements. */
    var size: nat

    /** Slots `[0, size)` are the live elements, and there are no more of them than slots. */
    ghost predicate Valid()
      reads this, data
    {
      data.Valid() && size <= data.capacity
    }

    /** Two distinct vectors own distinct handles and distinct blocks. */
    ghost predicate Separate(other: Vector)
      reads this, data, other, other.data
    {
      this != other && data != other.data && (data.buffer == null || data.buffer != other.data.buffer)
    }

    /** After a call, the vector owns the block it owned before, no block, or one allocated by the call. */
    twostate predicate SameOrFreshBlock()
      reads this, data
    {
      data.buffer == old(data.buffer) || data.buffer == null || fresh(data.buffer)
    }

    /** The live elements, in order. */
    function Elements(): (s: seq<int>)
      reads this, data, data.buffer
      requires Valid()
      ensures |s| == size
    {
      if data.buffer == null then [] else data.buffer[..size]
    }

    /** `Size()`: the number of live elements. */
    function Size(): (n: nat)
      reads this, data, data.buffer
      requires Valid()
      ensures n == |Elements()|
    {
      size
    }

    /** `Capacity()`: the number of slots, never fewer than the live elements. */
    function Capacity(): (c: nat)
      reads this, data, data.buffer
      requires Valid()
      ensures c >= |Elements()|
    {
      data.capacity
    }

    /** `IsEmpty()`. */
    function IsEmpty(): (r: bool)
      reads this, data, data.buffer
      requires Valid()
      ensures r <==> Elements() == []
    {
      size == 0
    }

    //---------------------------------------------------------------- construction

    /** `Vector()`: no elements and no storage. */
    constructor ()
      ensures Valid() && fresh(data)
      ensures Elements() == [] && Capacity() == 0 && data.buffer == null
    {
      data := new RawMemory.Empty();
      size := 0;
    }

    /** `Vector(n)`: `n` value-initialised elements in exactly `n` slots. */
    constructor OfSize(n: nat)
      ensures Valid() && fresh(data) && (data.buffer == null || fresh(data.buffer))
      ensures Elements() == seq(n, _ => ValueInit) && Capacity() == n
    {
      data := new RawMemory(n);
      size := n;
      new;
      ValueConstructN(data.buffer, 0, n);
    }

    /** Copy construction: the same elements, in exactly as many slots. */
    constructor Copy(other: Vector)
      requires other.Valid()
      ensures Valid() && fresh(data) && (data.buffer == null || fresh(data.buffer))
      ensures Elements() == other.Elements() && Capacity() == other.Size()
    {
      data := new RawMemory(other.size);
      size := other.size;
      new;
      CopyN(other.data.buffer, 0, other.size, data.buffer, 0);
    }

    /** Move construction takes over `other`'s block and leaves `other` empty, with no storage. */
    constructor Move(other: Vector)
      requires other.Valid()
      modifies other, other.data
      ensures Valid() && other.Valid() && fresh(data)
      ensures Elements() == old(other.Elements()) && Capacity() == old(other.Capacity())
      ensures data.buffer == old(other.data.buffer)
      ensures other.Elements() == [] && other.Capacity() == 0
    {
      data := new RawMemory.Move(other.data);
      size := other.size;
      new;
      other.size := 0;
    }

    /** Construction from an initializer list: its items, in exactly as many slots. */
    constructor FromList(items: seq<int>)
      ensures Valid() && fresh(data) && (data.buffer == null || fresh(data.buffer))
      ensures Elements() == items && Capacity() == |items|
    {
      data := new RawMemory(|items|);
      size := |items|;
      new;
      CopyRange(items, data.buffer, 0);
    }

    //---------------------------------------------------------------- assignment and swap

    /**
     * Copy assignment: afterwards this vector holds `other`'s elements.  When they
     * fit, the existing slots are reused and the capacity is kept; otherwise the
     * vector takes the block of a fresh copy of `other`.
     */
    method CopyAssign(other: Vector)
      requires Valid() && other.Valid()
      requires other != this ==> Separate(other)
      modifies this, data, data.buffer
      ensures Valid() && other.Valid() && SameOrFreshBlock()
      ensures Elements() == old(other.Elements()) && other.Elements() == old(other.Elements())
      ensures Capacity() == ExactFitCapacity(old(Capacity()), old(other.Size()))
    {
      if other != this {
        if other.size <= data.capacity {
          if size <= other.size {
            CopyN(other.data.buffer, 0, size, data.buffer, 0);
            CopyN(other.data.buffer, size, other.size - size, data.buffer, size);
          } else {
            CopyN(other.data.buffer, 0, other.size, data.buffer, 0);
            // the surplus elements [other.size, size) are destroyed
          }
          size := other.size;
        } else {
          var copy := new Vector.Copy(other);
          Swap(copy);
        }
      }
    }

    /** Exchanges elements and storage with `other`. */
    method Swap(other: Vector)
      requires Valid() && other.Valid()
      requires other != this ==> Separate(other)
      modifies this, data, other, other.data
      ensures Valid() && other.Valid()
      ensures Elements() == old(other.Elements()) && other.Elements() == old(Elements())
      ensures Capacity() == old(other.Capacity()) && other.Capacity() == old(Capacity())
      ensures data.buffer == old(other.data.buffer) && other.data.buffer == old(data.buffer)
    {
      data.Swap(other.data);
      var n := size;
      size := other.size;
      other.size := n;
    }

    /** Move assignment swaps: `other` is left holding this vector's former elements and storage. */
    method MoveAssign(other: Vector)
      requires Valid() && other.Valid()
      requires other != this ==> Separate(other)
      modifies this, data, other, other.data
      ensures Valid() && other.Valid()
      ensures Elements() == old(other.Elements()) && other.Elements() == old(Elements())
      ensures Capacity() == old(other.Capacity()) && other.Capacity() == old(Capacity())
      ensures data.buffer == old(other.data.buffer) && other.data.buffer == old(data.buffer)
    {
      Swap(other);
    }

    //---------------------------------------------------------------- element access

    /** `operator[]`: the element at `index`. */
    function Get(index: nat): (x: int)
      reads this, data, data.buffer
      requires Valid() && index < Size()
      ensures x == Elements()[index]
    {
      data.Get(index)
    }

    /** Writing through the reference `operator[]` returns replaces that one element. */
    method Set(index: nat, x: int)
      requires Valid() && index < Size()
      modifies data.buffer
      ensures Valid() && Elements() == old(Elements())[index := x]
      ensures Capacity() == old(Capacity())
    {
      data.buffer[index] := x;
    }

    /** `At`: the element at `index`, bounds asserted exactly like `operator[]`. */
    function At(index: nat): (x: int)
      reads this, data, data.buffer
      requires Valid() && index < Size()
      ensures x == Elements()[index]
    {
      data.Get(index)
    }

    /** `Front`: the first element of a non-empty vector. */
    function Front(): (x: int)
      reads this, data, data.buffer
      requires Valid() && Size() > 0
      ensures x == Elements()[0]
    {
      data.Get(0)
    }

    /** `Back`: the last element of a non-empty vector. */
    function Back(): (x: int)
      reads this, data, data.buffer
      requires Valid() && Size() > 0
      ensures x == Elements()[|Elements()| - 1]
    {
      data.Get(size - 1)
    }

    //---------------------------------------------------------------- capacity

    /** `Clear`: no elements; the storage is kept. */
    method Clear()
      requires Valid()
      modifies this
      ensures Valid() && Elements() == [] && Capacity() == old(Capacity())
    {
      // the live elements [0, size) are destroyed
      size := 0;
    }

    /**
     * `Reserve(n)`: with `n` no larger than the capacity nothing changes;
     * otherwise the elements move into a block of exactly `n` slots.
     */
    method Reserve(newCapacity: nat)
      requires Valid()
      modifies data
      ensures Valid() && SameOrFreshBlock()
      ensures Elements() == old(Elements())
      ensures Capacity() == ExactFitCapacity(old(Capacity()), newCapacity)
      ensures newCapacity <= old(Capacity()) ==> unchanged(data)
    {
      if newCapacity <= data.capacity {
        return;
      }
      var newData := new RawMemory(newCapacity);
      CopyN(data.buffer, 0, size, newData.buffer, 0);
      // the originals [0, size) are destroyed
      data.Swap(newData);
    }

    /**
     * `Resize(n)`: the elements are cut to `n` or padded with value-initialised
     * ones; when `n` exceeds the capacity it grows to the larger of `n` and twice
     * the old capacity.
     */
    method Resize(newSize: nat)
      requires Valid()
      modifies this, data, data.buffer
      ensures Valid() && SameOrFreshBlock()
      ensures Elements() == Resized(old(Elements()), newSize)
      ensures Capacity() == ResizeCapacity(old(Capacity()), newSize)
    {
      if newSize < size {
        // the trailing elements [newSize, size) are destroyed
      } else {
        if newSize > data.capacity {
          var newCapacity := if data.capacity * 2 < newSize then newSize else data.capacity * 2;
          Reserve(newCapacity);
        }
        ValueConstructN(data.buffer, size, newSize - size);
      }
      size := newSize;
    }

    /** `ShrinkToFit`: the same elements in exactly as many slots (no storage when empty). */
    method ShrinkToFit()
      requires Valid()
      modifies data
      ensures Valid() && SameOrFreshBlock()
      ensures Elements() == old(Elements()) && Capacity() == Size()
      ensures Size() == 0 ==> data.buffer == null
    {
      if size == data.capacity {
        return;
      }
      if size == 0 {
        var empty := new RawMemory.Empty();
        data.MoveAssign(empty);
      } else {
        var newData := new RawMemory(size);
        CopyN(data.buffer, 0, size, newData.buffer, 0);
        data.Swap(newData);
      }
    }

    //---------------------------------------------------------------- insertion and removal

    /**
     * `PushBack(v)`: appends `v`.  A full vector first moves into a block of one
     * slot (when empty) or twice as many slots, with `v` written to its final
     * slot before the old elements are transferred.
     */
    method PushBack(value: int)
      requires Valid()
      modifies this, data, data.buffer
      ensures Valid() && SameOrFreshBlock()
      ensures Elements() == old(Elements()) + [value]
      ensures Capacity() == PushCapacity(old(Capacity()), old(Size()))
    {
      if data.capacity <= size {
        var newData := new RawMemory(if size == 0 then 1 else size * 2);
        newData.buffer[size] := value;
        CopyN(data.buffer, 0, size, newData.buffer, 0);
        // the originals [0, size) are destroyed
        data.Swap(newData);
      } else {
        data.buffer[size] := value;
      }
      size := size + 1;
    }

    /**
     * `EmplaceBack(args...)`: appends the element constructed from the arguments
     * (here the value `value` itself) by the same growth rule as `PushBack`, and
     * returns the new last element.
     */
    method EmplaceBack(value: int) returns (last: int)
      requires Valid()
      modifies this, data, data.buffer
      ensures Valid() && SameOrFreshBlock()
      ensures Elements() == old(Elements()) + [value]
      ensures Capacity() == PushCapacity(old(Capacity()), old(Size()))
      ensures last == Back() == value
    {
      if data.capacity <= size {
        var newData := new RawMemory(if size == 0 then 1 else size * 2);
        newData.buffer[size] := value;
        CopyN(data.buffer, 0, size, newData.buffer, 0);
        // the originals [0, size) are destroyed
        data.Swap(newData);
      } else {
        data.buffer[size] := value;
      }
      last := data.Get(size);
      size := size + 1;
    }

    /**
     * `Emplace(pos, args...)`: inserts the constructed value before position `pos`
     * and returns `pos`; a full vector grows as in `PushBack`.
     */
    method Emplace(pos: nat, value: int) returns (it: nat)
      requires Valid() && pos <= Size()
      modifies this, data, data.buffer
      ensures Valid() && SameOrFreshBlock()
      ensures it == pos
      ensures Elements() == Inserted(old(Elements()), pos, value)
      ensures Capacity() == PushCapacity(old(Capacity()), old(Size()))
    {
      ghost var after := Inserted(Elements(), pos, value);
      var position := pos;
      if data.capacity <= size {
        EmplaceRelocating(position, value);
      } else {
        EmplaceInPlace(position, value);
      }
      assert data.buffer != null && data.buffer[..size + 1] == after;
      size := size + 1;
      it := position;
      assert Elements() == data.buffer[..size];
    }

    /**
     * The growth path of `Emplace`: the new value is written to its final slot
     * of a block of one slot (when empty) or twice as many, then the elements
     * before and after `position` are transferred around it and the blocks are
     * swapped.  Slots `[0, size]` then hold the new sequence; `size` is not yet
     * updated.
     */
    method EmplaceRelocating(position: nat, value: int)
      requires Valid() && position <= size && data.capacity <= size
      modifies data
      ensures data.Valid() && SameOrFreshBlock() && data.capacity == GrowthCapacity(size)
      ensures data.buffer != null && data.buffer[..size + 1] == Inserted(old(Elements()), position, value)
    {
      ghost var before := Elements();
      var newData := new RawMemory(if size == 0 then 1 else size * 2);
      var block := newData.buffer;
      block[position] := value;
      CopyN(data.buffer, 0, position, block, 0);
      ghost var front := block[..];
      assert front[position] == value by {
        assert front[position..][0] == block[position..][0];
      }
      CopyN(data.buffer, position, size - position, block, position + 1);
      ghost var after := Inserted(before, position, value);
      forall i | 0 <= i <= size
        ensures block[i] == after[i]
      {
        if i < position {
          assert block[..position + 1][i] == front[..position + 1][i];
          assert front[0..position][i] == before[0..position][i];
        } else if i == position {
          assert block[..position + 1][i] == front[..position + 1][i];
        } else {
          assert block[position + 1..size + 1][i - position - 1] == before[position..size][i - position - 1];
        }
      }
      assert block[..size + 1] == after;
      // the originals [0, size) are destroyed
      data.Swap(newData);
    }

    /**
     * The in-place path of `Emplace`, with a free slot at `size`: at the end the
     * value is written there; elsewhere the last element moves into the free
     * slot, the elements `[position, size - 1)` shift up by one, back to front,
     * and the new value is moved into `position`.  Slots `[0, size]` then hold
     * the new sequence; `size` is not yet updated.
     */
    method EmplaceInPlace(position: nat, value: int)
      requires Valid() && position <= size < data.capacity
      modifies data.buffer
      ensures data.buffer != null && data.buffer[..size + 1] == Inserted(old(Elements()), position, value)
    {
      ghost var before := Elements();
      ghost var after := Inserted(before, position, value);
      var buffer := data.buffer;
      if position != size {
        var newValue := value;
        buffer[size] := buffer[size - 1];
        ghost var shifted := buffer[..];
        MoveUpByOne(buffer, position, size - 1);
        buffer[position] := newValue;
        forall i | 0 <= i <= size
          ensures buffer[i] == after[i]
        {
          if i < position {
            assert buffer[..position + 1][i] == shifted[..position + 1][i];
          } else if position < i < size {
            assert buffer[position + 1..size][i - position - 1] == shifted[position..size - 1][i - position - 1];
          } else if i == size {
            assert buffer[size..][0] == shifted[size..][0];
          }
        }
      } else {
        buffer[size] := value;
      }
      assert buffer[..size + 1] == after;
    }

    /** `Insert(pos, v)` is `Emplace(pos, v)`. */
    method Insert(pos: nat, value: int) returns (it: nat)
      requires Valid() && pos <= Size()
      modifies this, data, data.buffer
      ensures Valid() && SameOrFreshBlock()
      ensures it == pos
      ensures Elements() == Inserted(old(Elements()), pos, value)
      ensures Capacity() == PushCapacity(old(Capacity()), old(Size()))
    {
      it := Emplace(pos, value);
    }

    /**
     * `Erase(pos)`: removes the element at `pos` by shifting the ones after it
     * down by one, front to back, and returns `pos`; the storage is kept.
     */
    method Erase(pos: nat) returns (it: nat)
      requires Valid() && pos < Size()
      modifies this, data.buffer
      ensures Valid() && it == pos
      ensures Elements() == Erased(old(Elements()), pos)
      ensures Capacity() == old(Capacity())
    {
      var position := pos;
      MoveDownByOne(data.buffer, position + 1, size);
      // the vacated last slot is destroyed
      size := size - 1;
      it := position;
    }

    /** `PopBack`: removes the last element of a non-empty vector; the storage is kept. */
    method PopBack()
      requires Valid() && Size() > 0
      modifies this
      ensures Valid() && Elements() == old(Elements())[..old(Size()) - 1]
      ensures Capacity() == old(Capacity())
    {
      // the last element is destroyed
      size := size - 1;
    }

    /**
     * `Assign(first, last)` and `Assign(initializer_list)`: afterwards the vector
     * holds exactly `items`; it reallocates to exactly `|items|` slots only when
     * they do not fit.
     */
    method Assign(items: seq<int>)
      requires Valid()
      modifies this, data, data.buffer
      ensures Valid() && SameOrFreshBlock()
      ensures Elements() == items
      ensures Capacity() == ExactFitCapacity(old(Capacity()), |items|)
    {
      Clear();
      var newSize := |items|;
      if newSize > data.capacity {
        var newData := new RawMemory(newSize);
        CopyRange(items, newData.buffer, 0);
        data.Swap(newData);
      } else {
        CopyRange(items, data.buffer, 0);
      }
      size := newSize;
    }
  }

  //---------------------------------------------------------------- comparison operators

  /** `operator==`: equal sizes and pairwise equal elements. */
  function Equal(lhs: Vector, rhs: Vector): (r: bool)
    reads lhs, lhs.data, lhs.data.buffer, rhs, rhs.data, rhs.data.buffer
    requires lhs.Valid() && rhs.Valid()
    ensures r <==> lhs.Size() == rhs.Size() && forall i :: 0 <= i < lhs.Size() ==> lhs.Elements()[i] == rhs.Elements()[i]
  {
    RangesEqual(lhs.Elements(), rhs.Elements())
  }

  /** `operator!=`: the element sequences differ. */
  function NotEqual(lhs: Vector, rhs: Vector): (r: bool)
    reads lhs, lhs.data, lhs.data.buffer, rhs, rhs.data, rhs.data.buffer
    requires lhs.Valid() && rhs.Valid()
    ensures r <==> lhs.Elements() != rhs.Elements()
  {
    !Equal(lhs, rhs)
  }

  /** `operator<`: `lhs` comes first in lexicographic order. */
  function Less(lhs: Vector, rhs: Vector): (r: bool)
    reads lhs, lhs.data, lhs.data.buffer, rhs, rhs.data, rhs.data.buffer
    requires lhs.Valid() && rhs.Valid()
    ensures r <==> LexBefore(lhs.Elements(), rhs.Elements())
  {
    LexCompareIsLexBefore(lhs.Elements(), rhs.Elements());
    LexCompare(lhs.Elements(), rhs.Elements())
  }

  /** `operator<=`, written as `!(rhs < lhs)`: `lhs` comes first or the two are equal. */
  function LessEq(lhs: Vector, rhs: Vector): (r: bool)
    reads lhs, lhs.data, lhs.data.buffer, rhs, rhs.data, rhs.data.buffer
    requires lhs.Valid() && rhs.Valid()
    ensures r <==> LexBefore(lhs.Elements(), rhs.Elements()) || lhs.Elements() == rhs.Elements()
  {
    LexCompareTrichotomy(lhs.Elements(), rhs.Elements());
    LexCompareIsLexBefore(lhs.Elements(), rhs.Elements());
    !Less(rhs, lhs)
  }

  /**
   * `operator>` as the source writes it, `lhs <= rhs`: it holds when `lhs` comes
   * first or the two are equal, which is the opposite of "greater".
   */
  function Greater(lhs: Vector, rhs: Vector): (r: bool)
    reads lhs, lhs.data, lhs.data.buffer, rhs, rhs.data, rhs.data.buffer
    requires lhs.Valid() && rhs.Valid()
    ensures r <==> LexBefore(lhs.Elements(), rhs.Elements()) || lhs.Elements() == rhs.Elements()
  {
    LessEq(lhs, rhs)
  }

  /** `operator>` as evidently intended, `rhs < lhs`: `rhs` comes first. */
  function StrictlyGreater(lhs: Vector, rhs: Vector): (r: bool)
    reads lhs, lhs.data, lhs.data.buffer, rhs, rhs.data, rhs.data.buffer
    requires lhs.Valid() && rhs.Valid()
    ensures r <==> LexBefore(rhs.Elements(), lhs.Elements())
  {
    Less(rhs, lhs)
  }

  /** `operator>=`, written as `!(lhs < rhs)`: `rhs` comes first or the two are equal. */
  function GreaterEq(lhs: Vector, rhs: Vector): (r: bool)
    reads lhs, lhs.data, lhs.data.buffer, rhs, rhs.data, rhs.data.buffer
    requires lhs.Valid() && rhs.Valid()
    ensures r <==> LexBefore(rhs.Elements(), lhs.Elements()) || lhs.Elements() == rhs.Elements()
  {
    LexCompareTrichotomy(lhs.Elements(), rhs.Elements());
    LexCompareIsLexBefore(rhs.Elements(), lhs.Elements());
    !Less(lhs, rhs)
  }

  /** `operator<=>`: the three-way lexicographic comparison. */
  function Compare(lhs: Vector, rhs: Vector): (r: StrongOrdering)
    reads lhs, lhs.data, lhs.data.buffer, rhs, rhs.data, rhs.data.buffer
    requires lhs.Valid() && rhs.Valid()
    ensures r == OrderLess <==> LexBefore(lhs.Elements(), rhs.Elements())
    ensures r == OrderEqual <==> lhs.Elements() == rhs.Elements()
    ensures r == OrderGreater <==> LexBefore(rhs.Elements(), lhs.Elements())
  {
    LexCompareIsLexBefore(lhs.Elements(), rhs.Elements());
    LexCompareIsLexBefore(rhs.Elements(), lhs.Elements());
    LexCompareThreeWay(lhs.Elements(), rhs.Elements())
  }

  /** Exactly one of `lhs < rhs`, `lhs == rhs` and the corrected `lhs > rhs` holds. */
  lemma ComparisonTrichotomy(lhs: Vector, rhs: Vector)
    requires lhs.Valid() && rhs.Valid()
    ensures Less(lhs, rhs) || Equal(lhs, rhs) || StrictlyGreater(lhs, rhs)
    ensures !(Less(lhs, rhs) && Equal(lhs, rhs))
    ensures !(Less(lhs, rhs) && StrictlyGreater(lhs, rhs))
    ensures !(Equal(lhs, rhs) && StrictlyGreater(lhs, rhs))
  {
    LexCompareTrichotomy(lhs.Elements(), rhs.Elements());
    LexCompareIsLexBefore(lhs.Elements(), rhs.Elements());
    LexCompareIsLexBefore(rhs.Elements(), lhs.Elements());
  }

  /** The source's `operator>` holds of two equal vectors, where the corrected one does not. */
  lemma GreaterAsWrittenHoldsOfEqualVectors(lhs: Vector, rhs: Vector)
    requires lhs.Valid() && rhs.Valid() && lhs.Elements() == rhs.Elements()
    ensures Greater(lhs, rhs) && !StrictlyGreater(lhs, rhs)
  {
    LexCompareIrreflexive(lhs.Elements());
    LexCompareIsLexBefore(lhs.Elements(), lhs.Elements());
  }

  /** The source's `operator>` says `{1} > {2}`, though `{1} < {2}`. */
  lemma GreaterAsWrittenHoldsOfSmallerVector(lhs: Vector, rhs: Vector)
    requires lhs.Valid() && rhs.Valid() && lhs.Elements() == [1] && rhs.Elements() == [2]
    ensures Greater(lhs, rhs) && Less(lhs, rhs) && !StrictlyGreater(lhs, rhs)
  {
    LexCompareIsLexBefore(lhs.Elements(), rhs.Elements());
    LexCompareIsLexBefore(rhs.Elements(), lhs.Elements());
  }

  /**
   * Start empty, push 1, 2, 3, insert 9 before position 1, erase position 2, pop
   * the back: the contracts alone determine every intermediate sequence and
   * capacity.
   */
  method PushInsertEraseScenario()
  {
    var v := new Vector();
    v.PushBack(1);
    v.PushBack(2);
    v.PushBack(3);
    assert v.Elements() == [1, 2, 3] && v.Capacity() == 4;
    var it := v.Insert(1, 9);
    assert v.Elements() == [1, 9, 2, 3] && v.Capacity() == 4 && it == 1;
    it := v.Erase(2);
    assert v.Elements() == [1, 9, 3] && it == 2;
    v.PopBack();
    assert v.Elements() == [1, 9] && v.Capacity() == 4;
  }
}
