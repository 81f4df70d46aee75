# advance_vector in Dafny

A model of `custom_vector.h`. That header is a from-scratch dynamic array built in two layers:

- `RawMemory<T>` owns a fixed-capacity block of uninitialised slots. A handle can be moved and swapped but never copied.
- `Vector<T>` keeps a `RawMemory` block and a `size`. Slots `[0, size)` are the live elements.

The model is imperative, like the source.

- `Memory.RawMemory` is a class with a nullable `buffer: array?<int>` and a `capacity`. `Allocate(0)` yields `null`.
- `Vectors.Vector` is a class with a `RawMemory` handle and a `size` field. Its invariant `Valid()` says that `size <= capacity`. `Elements()` is the sequence of live slots.
- Every vector method changes those fields and arrays in place, and its contract gives the new elements and capacity as a function of the old ones. `Emplace`, `Insert`, `Erase` and `Resize` use the sequence functions of `VectorSpec` (`Inserted`, `Erased`, `Resized`). `PushBack`, `EmplaceBack`, `PopBack`, `Clear`, `Set`, `Assign`, `CopyAssign`, `Swap` and `MoveAssign` state the new sequence directly (`old + [v]`, a prefix, an update, the assigned items, the other vector's elements). The growth paths use the capacity functions of `VectorSpec` (`PushCapacity`, `ExactFitCapacity`, `ResizeCapacity`).
- Those functions carry their own lemmas. Erase undoes insert. Resizing composes. Doubling growth is amortised.
- The element shifts that `Emplace` and `Erase` make inside a block are loops over the array, in `Memory.MoveUpByOne` and `Memory.MoveDownByOne`. The same holds for the transfers into a new block (`Memory.CopyN`).
- The comparison operators are functions over two vectors. They are built on recursive models of `std::equal`, `std::lexicographical_compare` and `std::lexicographical_compare_three_way` (module `Lexicographic`). These are proved equal to an independent first-difference definition, `LexBefore`, and proved to form a strict total order.

The element type `T` is concretised to `int`. A value-initialised `T()` is `Memory.ValueInit` (0). The arguments of `EmplaceBack` and `Emplace` stand for the value they construct.

A few points where this code behaves differently from a standard vector. The model follows the code:

- Move assignment of a `Vector` is `Swap` (custom_vector.h:167-171). The moved-from vector is left with the target's former elements and storage, not empty. Only move construction empties its source (custom_vector.h:125).
- `Erase` asserts `pos <= end()` (custom_vector.h:390). That admits `end()`, for which the body is undefined. The model requires `pos < Size()`.
- The growth target on a full vector is `size == 0 ? 1 : size * 2` (custom_vector.h:435). Since a full vector has `capacity == size`, this equals `max(1, 2 * capacity)`.

## Model

| member | source | states |
|---|---|---|
| Memory.RawMemory.Allocate | custom_vector.h:90-93 | a request for no slots yields no block (null); any other request yields a fresh block of exactly `n` slots |
| Memory.RawMemory.Empty | custom_vector.h:15 | the default handle owns nothing: null block, capacity 0 |
| Memory.RawMemory.constructor | custom_vector.h:17 | `RawMemory(n)` owns a fresh block of exactly `n` slots (none when `n == 0`) |
| Memory.RawMemory.Move | custom_vector.h:19 | move construction takes over the block and capacity and leaves the source as (null, 0) |
| Memory.RawMemory.MoveAssign | custom_vector.h:30-40 | move assignment takes over the block and capacity and leaves the source as (null, 0); self-assignment changes nothing |
| Memory.RawMemory.Get | custom_vector.h:53-62 | slot access is defined only for `index < capacity` and yields that slot |
| Memory.RawMemory.Swap | custom_vector.h:64-68 | the two handles exchange blocks and capacities, and both stay well formed |
| Memory.CopyN | custom_vector.h:324-331 | transferring `n` slots between two distinct blocks puts the source range at the destination offset in order and leaves every other destination slot unchanged |
| Memory.CopyRange | custom_vector.h:544-554 | copying an input range into a block puts its items at the offset in order and leaves every other slot unchanged |
| Memory.ValueConstructN | custom_vector.h:351 | the `n` slots from `from` hold the value-initialised element, and no other slot changes |
| Memory.MoveDownByOne | custom_vector.h:393 | the forward move shifts `[first, last)` down one slot, front to back, and changes nothing outside `[first - 1, last)` |
| Memory.MoveUpByOne | custom_vector.h:520 | the backward move shifts `[first, last)` up one slot, back to front, and changes nothing outside `[first, last + 1)` |
| VectorSpec.Inserted | custom_vector.h:487-536 | the sequence after inserting `v` at `p`: one longer, `v` at `p`, earlier elements in place, later ones one slot up |
| VectorSpec.Erased | custom_vector.h:388-398 | the sequence after erasing at `p`: one shorter, earlier elements in place, later ones one slot down |
| VectorSpec.EraseUndoesInsert | custom_vector.h:379-398 | erasing at `p` after inserting at `p` restores the original sequence |
| VectorSpec.InsertUndoesErase | custom_vector.h:379-398 | re-inserting the erased element at its position restores the original sequence |
| VectorSpec.Resized | custom_vector.h:337-354 | after resizing to `n` there are exactly `n` elements; the first `min(n, old size)` are kept and the rest are value-initialised |
| VectorSpec.ResizeToSameLength | custom_vector.h:337-354 | resizing to the current size changes nothing |
| VectorSpec.ResizeThenShrink | custom_vector.h:337-354 | resizing to `m` and then down to `n <= m` equals resizing straight to `n` |
| VectorSpec.GrowthCapacity | custom_vector.h:435 | the block a full vector grows into has room for at least one more element and at most `2 * size + 1` slots |
| VectorSpec.PushCapacity | custom_vector.h:433-453 | appending or inserting keeps the capacity unless the vector is full, and then uses the growth capacity; either way the element fits |
| VectorSpec.ExactFitCapacity | custom_vector.h:314-335 | when `n` slots are needed, the capacity stays if it suffices and otherwise becomes exactly `n` (used by `Reserve`, `Assign` and copy assignment) |
| VectorSpec.ResizeCapacity | custom_vector.h:345-350 | resizing keeps the capacity unless `n` exceeds it; then the capacity becomes at least `n` and at least double, equal to one of the two |
| VectorSpec.CapacityAfterPushes | custom_vector.h:431-455 | after `n` appends to a vector with no storage, there are at least `n` slots |
| VectorSpec.PushGrowthIsAmortised | custom_vector.h:431-455 | after `n > 0` appends the capacity is in `[n, 2n)`, and fewer than `2n` element transfers happened in total (amortised O(1) append) |
| Lexicographic.RangesEqual | custom_vector.h:560-564 | the pairwise walk over two ranges returns true exactly when they are the same sequence |
| Lexicographic.LexCompare | custom_vector.h:570-574 | `std::lexicographical_compare` walks both ranges while neither is exhausted; the first unequal pair decides, otherwise the range that ran out first while the other did not is less; a true answer never holds of two equal sequences (its full meaning is `LexCompareIsLexBefore`) |
| Lexicographic.LexCompareThreeWay | custom_vector.h:590-594 | the three-way comparison answers less, equal or greater exactly when the two-way comparison says `a < b`, `a == b` or `b < a` |
| Lexicographic.LexCompareIsLexBefore | custom_vector.h:570-574 | `std::lexicographical_compare` holds exactly when, at the first differing position, `a` has the smaller element, or `a` is a proper prefix of `b` |
| Lexicographic.LexCompareIrreflexive | custom_vector.h:570-574 | no sequence compares less than itself |
| Lexicographic.LexCompareTransitive | custom_vector.h:570-574 | lexicographic less-than is transitive |
| Lexicographic.LexCompareTrichotomy | custom_vector.h:570-574 | for any two sequences exactly one of `a < b`, `a == b`, `b < a` holds |
| Vectors.Vector.Elements | custom_vector.h:423-424 | the live elements are slots `[0, size)` of the block, and there are `size` of them |
| Vectors.Vector.Size | custom_vector.h:237-240 | the size is the number of live elements |
| Vectors.Vector.Capacity | custom_vector.h:242-245 | the capacity is never below the number of live elements |
| Vectors.Vector.IsEmpty | custom_vector.h:252-255 | true exactly when there are no elements |
| Vectors.Vector.constructor | custom_vector.h:113 | a default vector has no elements and no storage |
| Vectors.Vector.OfSize | custom_vector.h:115-118 | `Vector(n)` holds `n` value-initialised elements in exactly `n` slots |
| Vectors.Vector.Copy | custom_vector.h:120-123 | a copy holds the same elements in exactly as many slots, in a fresh block |
| Vectors.Vector.Move | custom_vector.h:125 | move construction takes over the elements, capacity and block, and leaves the source with size 0 and capacity 0 |
| Vectors.Vector.FromList | custom_vector.h:127-130 | construction from an initializer list holds its items in exactly as many slots |
| Vectors.Vector.CopyAssign | custom_vector.h:139-165 | after copy assignment the vector holds `other`'s elements and `other` is unchanged; the capacity is kept when `other.Size()` fits and otherwise becomes exactly `other.Size()` |
| Vectors.Vector.Swap | custom_vector.h:309-312 | the two vectors exchange elements, capacities and blocks |
| Vectors.Vector.MoveAssign | custom_vector.h:167-171 | move assignment exchanges elements, capacities and blocks with the source |
| Vectors.Vector.Get | custom_vector.h:173-181 | `operator[]` is defined only for `index < Size()` and yields the element at `index` |
| Vectors.Vector.Set | custom_vector.h:177-181 | writing through the reference from `operator[]` replaces exactly that element; size and capacity stay |
| Vectors.Vector.At | custom_vector.h:297-307 | `At` is defined only for `index < Size()` and yields the element at `index` |
| Vectors.Vector.Front | custom_vector.h:263-273 | `Front` of a non-empty vector is its first element |
| Vectors.Vector.Back | custom_vector.h:275-285 | `Back` of a non-empty vector is its last element |
| Vectors.Vector.Clear | custom_vector.h:257-261 | after `Clear` there are no elements and the capacity is unchanged |
| Vectors.Vector.Reserve | custom_vector.h:314-335 | elements and size are unchanged; with `n <= Capacity()` nothing changes, and otherwise the capacity becomes exactly `n` |
| Vectors.Vector.Resize | custom_vector.h:337-354 | the elements become `Resized(old, n)`, so `Size() == n`; the capacity becomes `max(2 * Capacity(), n)` only when `n > Capacity()` |
| Vectors.Vector.ShrinkToFit | custom_vector.h:356-372 | the elements are unchanged and the capacity equals the size; an empty vector keeps no block |
| Vectors.Vector.PushBack | custom_vector.h:429-455 | the elements become `old + [v]`; the capacity follows the growth rule when the vector was full and is unchanged otherwise |
| Vectors.Vector.EmplaceBack | custom_vector.h:457-483 | as `PushBack`, and the returned element is the new last element, `v` |
| Vectors.Vector.Emplace | custom_vector.h:485-536 | the elements become `old[..p] + [v] + old[p..]`, the result is `p`, and the capacity follows the growth rule, on both paths |
| Vectors.Vector.EmplaceRelocating | custom_vector.h:492-510 | the growth path puts `v` and the old elements around it into a block of the growth capacity |
| Vectors.Vector.EmplaceInPlace | custom_vector.h:511-533 | the in-place path (last element into the free slot, backward shift, new value at `p`) leaves slots `[0, size]` holding the inserted sequence |
| Vectors.Vector.Insert | custom_vector.h:379-386 | `Insert` has exactly the contract of `Emplace` |
| Vectors.Vector.Erase | custom_vector.h:388-398 | for `p < Size()` the elements become `old[..p] + old[p+1..]`, the result is `p`, and the capacity is unchanged |
| Vectors.Vector.PopBack | custom_vector.h:400-405 | a non-empty vector loses its last element and keeps its capacity |
| Vectors.Vector.Assign | custom_vector.h:538-556 | afterwards the elements are exactly the range; the capacity becomes the range length if that exceeds it and is otherwise unchanged |
| Vectors.Equal | custom_vector.h:560-564 | `==` holds exactly when the sizes match and the elements are pairwise equal |
| Vectors.NotEqual | custom_vector.h:565-569 | `!=` holds exactly when the element sequences differ |
| Vectors.Less | custom_vector.h:570-574 | `<` holds exactly when `lhs` comes first lexicographically |
| Vectors.LessEq | custom_vector.h:575-579 | `<=` holds exactly when `lhs` comes first or the two are equal |
| Vectors.Greater | custom_vector.h:580-584 | `>` as written holds exactly when `lhs` comes first or the two are equal (see Findings) |
| Vectors.StrictlyGreater | custom_vector.h:580-584 | the intended `>` holds exactly when `rhs` comes first |
| Vectors.GreaterEq | custom_vector.h:585-589 | `>=` holds exactly when `rhs` comes first or the two are equal |
| Vectors.Compare | custom_vector.h:590-594 | `<=>` is less, equal or greater exactly when `lhs` comes first, the sequences are equal, or `rhs` comes first |
| Vectors.ComparisonTrichotomy | custom_vector.h:560-594 | exactly one of `lhs < rhs`, `lhs == rhs` and the intended `lhs > rhs` holds |
| Vectors.GreaterAsWrittenHoldsOfEqualVectors | custom_vector.h:580-584 | `>` as written is true of two equal vectors, and the intended `>` is false |
| Vectors.GreaterAsWrittenHoldsOfSmallerVector | custom_vector.h:580-584 | `>` as written says `{1} > {2}`, although `{1} < {2}` |

`VectorSpec.TransfersAfterPushes` counts transfers for the amortisation lemma, which states what it does. `Vectors.PushInsertEraseScenario` replays a short sequence of calls: push 1, 2, 3, insert 9 at 1, erase at 2, pop. It shows that the contracts alone fix every resulting sequence and capacity.

## Findings

| source | as written | input that shows it | evidently intended | confidence | as-written member | corrected member |
|---|---|---|---|---|---|---|
| custom_vector.h:580-584 | `operator>` returns `lhs <= rhs` | `{1} > {1}` is true; `{1} > {2}` is true | `rhs < lhs` | high; not executed | Vectors.Greater (shown by Vectors.GreaterAsWrittenHoldsOfEqualVectors and Vectors.GreaterAsWrittenHoldsOfSmallerVector) | Vectors.StrictlyGreater (with Vectors.ComparisonTrichotomy) |

## Left out

- Allocation failure, exceptions and the strong guarantee: the model has no failing allocator and no throwing element operations. This covers the `try`/`catch` at custom_vector.h:513-532, whose `operator delete(end())` frees a pointer that was never allocated on its own.
- Object lifetime: destructors (custom_vector.h:23-26, 132-135), `std::destroy_n`/`std::destroy_at` and placement construction. Liveness is the `size` boundary, and a destroyed slot simply keeps a value that no one reads. So `ShrinkToFit` not destroying its moved-from originals (custom_vector.h:369-370) is invisible.
- Memory.RawMemory.MoveAssign: it drops the old block without releasing it, as custom_vector.h:34 does (no `Deallocate`). So `ShrinkToFit` on an empty vector that has storage (custom_vector.h:364) leaks that block. Release is not modelled, so the model cannot show the leak.
- Move versus copy transfer: the `is_nothrow_move_constructible` dispatch (custom_vector.h:324, 439, 467, 498) yields the same values on both branches, so both are a value copy (`Memory.CopyN`).
- Iterators and raw addresses: `begin`/`end`, the reverse iterators (including the misnamed `rbein` and the swapped `rbein`/`rend` bodies at custom_vector.h:207-214), `Data()`, `GetAddress()` and `RawMemory::operator+` (custom_vector.h:42-51). Positions are indices. Every slot index the model uses satisfies the `offset <= capacity` bound that `operator+` asserts. Iterator invalidation is not modelled.
- `MaxSize` (custom_vector.h:247-250): it uses `max` without a call and does not compile.
- `operator<=>`: only the lexicographic outcome is modelled, not the comparison category.
- VectorSpec.GrowthCapacity: does not model `size_t` wrap-around of `size * 2` (custom_vector.h:435). Sizes are unbounded naturals. A size whose doubling wraps means more than `SIZE_MAX / 2` live elements. For `T = int`, a vector can hold that many only with a block whose byte count has wrapped in `Allocate` (see the `Memory.RawMemory.Allocate` line), and filling such a block writes out of bounds first.
- Vectors.Vector.Resize: does not model `size_t` wrap-around of `Capacity() * 2` (custom_vector.h:347). A capacity above `SIZE_MAX / 2` can be recorded: on an empty `Vector<int>`, `Reserve(2^63)` asks `operator new` for a byte count that wraps to 0 and still records capacity 2^63 (custom_vector.h:17, 322). A later `Resize(2^63 + 1)` then takes `max(0, n) = n` as the new capacity, where `ResizeCapacity` gives `2^64`. The difference cannot be observed in a defined run, because the same call value-initialises slots beyond the real block at custom_vector.h:351.
- Vectors.Vector.Assign: the range is a sequence, so only ranges that can be walked twice (forward iterators and initializer lists) are covered. The source walks the range twice: `std::distance` counts it (custom_vector.h:544), then `std::uninitialized_copy` copies it (custom_vector.h:548 or 553). A single-pass input iterator, such as a `std::istream_iterator<int>`, is used up by the count. The copy then constructs at most the cached first value, while `size` becomes the full count, so the remaining slots are never initialised. The contract `Elements() == items` does not describe that case.
- Vectors.Vector.Erase: does not model the `int` narrowing of the position (custom_vector.h:391). It matters only beyond `INT_MAX` elements.
- Vectors.Vector.Emplace: does not model the `int` narrowing of the position (custom_vector.h:490), which every later write of `Emplace` uses (custom_vector.h:496-535). It matters only beyond `INT_MAX` elements.
- Memory.RawMemory.Allocate: does not model the `size_t` wrap of the byte count `n_ * sizeof(T)` (custom_vector.h:92). For `n` above `SIZE_MAX / sizeof(T)` (with 4-byte `int`, `n = 2^62`) the source asks `operator new` for a wrapped, much smaller byte count, gets a block too small for `n` elements, and still records capacity `n` (custom_vector.h:17). `Vector(n)` (custom_vector.h:115-118), `Reserve(n)` (custom_vector.h:322) and `Resize(n)` (custom_vector.h:347-349) take `n` from the caller unchecked, so a huge request leads to out-of-bounds writes. The model always yields exactly `n` slots.
- Generic element types: `T` is `int`, so element comparison is integer comparison and `T()` is 0. The variadic constructor arguments of `EmplaceBack` and `Emplace` are replaced by the value they construct.
