# SimpleVector in Dafny

A verified model of a small header-only growable array in two layers:

- `ArrayPtr<Type>` is a move-only owner of at most one heap block. A null owner holds nothing.
- `SimpleVector<Type>` is a dynamic array. It has a `size`, a `capacity` and a block of `capacity` slots. Slots `[0, size)` hold the live elements.

Modules:

- `Wrappers` (wrappers.dfy): `Option` is a raw pointer that may be null. `Result` and `Outcome` carry the out-of-range failure of `At`.
- `ArrayPointer` (array_ptr.dfy): class `ArrayPtr<T>` with one field `buf: Option<array<T>>`.
- `VectorModel` (vector_model.dfy): the abstract state `State(elems, cap)` of a vector. It has one pure transition function for each mutating operation whose effect is stated through the model. The lemmas about those functions cover round trips, the growth policy and the preserved invariant `size <= capacity`.
- `ArrayAlgorithms` (array_algorithms.dfy): the loops the vector runs over its block. These are `std::fill`, `std::copy`/`std::move` into a new block, `std::move_backward` for Insert and `std::move` for Erase.
- `Lexicographic` (lexicographic.dfy): `std::equal` and `std::lexicographical_compare` over two element sequences. Lemmas tie them to sequence equality and to the first-difference definition of lexicographic order, and prove that the order is strict and total.
- `Vector` (simple_vector.dfy): the reservation token, class `SimpleVector` and the six free comparison operators.
- `Usage` (usage.dfy): client code that runs worked scenarios using only the contracts.

About `SimpleVector`:

- Elements are `int`, and `Type()` is `Default == 0`.
- The class holds `size`, `capacity` and `data: array<int>` with `data.Length == capacity`. The vector's storage owner is represented by its block directly. An empty array stands for the null owner of a capacity-0 vector.
- Iterators are indices: `begin()` is 0 and `end()` is `size`.
- `Clear`, `Reserve`, `Resize`, `PushBack`, `PopBack`, `Insert`, `InsertOwnElement` and `Erase` are each proved to move `Model()` exactly as the matching `VectorModel` function prescribes. The other mutating methods state their new state directly: `Set`, `SetAt`, `Swap`, `CopyAssign` and `MoveAssign`.
- When `Reserve`, `Resize`, `PushBack` or `Insert` grows the capacity, the method ensures `fresh(data)`. This is how the model records that reallocation invalidates earlier iterators. When these four leave the capacity unchanged, they keep the same block. `Clear`, `PopBack`, `InsertOwnElement` and `Erase` always keep the same block. A moved-from vector gets a fresh empty block and can be used again.

Two facts about the code that the model keeps:

- `At` fails with a plain out-of-range error that carries neither the index nor the size (simple_vector.h:127-128).
- The copy constructor takes the source's capacity, not its size (simple_vector.h:65).

## Model

| member | source | states |
|---|---|---|
| `ArrayPointer.ArrayPtr.constructor` | SimpleVector/include/array_ptr.h:10 | a default-constructed owner is null |
| `ArrayPointer.ArrayPtr.OfSize` | SimpleVector/include/array_ptr.h:12-14 | a count of 0 leaves the owner null; a positive count gives a fresh block of exactly that many slots |
| `ArrayPointer.ArrayPtr.Adopt` | SimpleVector/include/array_ptr.h:16-18 | the owner holds exactly the adopted pointer, null or not, and allocates nothing |
| `ArrayPointer.ArrayPtr.Move` | SimpleVector/include/array_ptr.h:22-24 | the new owner holds the source's former block and the source becomes null |
| `ArrayPointer.ArrayPtr.MoveAssign` | SimpleVector/include/array_ptr.h:26-33 | for distinct owners the target holds the source's former block and the source becomes null; self-assignment leaves the block in place |
| `ArrayPointer.ArrayPtr.Release` | SimpleVector/include/array_ptr.h:41-45 | returns the block held before, possibly null, and leaves the owner null |
| `ArrayPointer.ArrayPtr.ElementAt` | SimpleVector/include/array_ptr.h:52-55 | on a held block and an in-bounds index, yields that slot of the block |
| `ArrayPointer.ArrayPtr.SetElementAt` | SimpleVector/include/array_ptr.h:47-50 | writes slot `index` of the held block, leaves every other slot and the ownership unchanged |
| `ArrayPointer.ArrayPtr.IsHeld` | SimpleVector/include/array_ptr.h:57-59 | true exactly when `Get` yields a non-null pointer |
| `ArrayPointer.ArrayPtr.Get` | SimpleVector/include/array_ptr.h:61-63 | yields the held pointer (null when none) without changing ownership |
| `ArrayPointer.ArrayPtr.Swap` | SimpleVector/include/array_ptr.h:65-67 | the two owners exchange their blocks |
| `ArrayAlgorithms.Fill` | SimpleVector/include/simple_vector.h:48 | the first `n` slots hold `value`, the rest are unchanged |
| `ArrayAlgorithms.CopyInto` | SimpleVector/include/simple_vector.h:236 | the first `|src|` slots of the destination hold `src` in order, the rest are unchanged |
| `ArrayAlgorithms.MoveBackward` | SimpleVector/include/simple_vector.h:214 | slots `[first, last)` end up one place to the right, and slots outside `(first, last]` are unchanged |
| `ArrayAlgorithms.MoveForward` | SimpleVector/include/simple_vector.h:227 | slots `(first, last)` end up one place to the left, and slots outside `[first, last - 1)` are unchanged |
| `Lexicographic.RangesEqual` | SimpleVector/include/simple_vector.h:286 | `std::equal` holds exactly when every element of the first range equals the element at the same position in the second |
| `Lexicographic.LexLess` | SimpleVector/include/simple_vector.h:296 | `std::lexicographical_compare` step by step; it never holds between equal ranges |
| `Lexicographic.RangesEqualIsPrefix` | SimpleVector/include/simple_vector.h:286 | `std::equal` over the first range holds exactly when that range is a prefix of the second |
| `Lexicographic.SameSizeRangesEqual` | SimpleVector/include/simple_vector.h:285-287 | for equal sizes, pairwise equality is sequence equality |
| `Lexicographic.LexLessMeaning` | SimpleVector/include/simple_vector.h:294-297 | `lexicographical_compare` holds exactly when, at the first position where the ranges differ, the left range has ended first or holds the smaller element |
| `Lexicographic.LexLessAsymmetric` | SimpleVector/include/simple_vector.h:294-297 | two ranges are never each less than the other |
| `Lexicographic.LexLessTransitive` | SimpleVector/include/simple_vector.h:294-297 | the order is transitive |
| `Lexicographic.LexLessTotal` | SimpleVector/include/simple_vector.h:294-297 | any two ranges are equal or ordered one way or the other |
| `Lexicographic.ProperPrefixIsLess` | SimpleVector/include/simple_vector.h:294-297 | a proper prefix is less than the longer range |
| `VectorModel.GrownCapacity` | SimpleVector/include/simple_vector.h:176 | `max(2 * capacity, 1)` exceeds the capacity: 1 from empty, otherwise double |
| `VectorModel.GrownIfFull` | SimpleVector/include/simple_vector.h:175-177 | the grow-when-full step of PushBack and Insert: contents unchanged, a no-op when there is room, and afterwards there is room for one more element |
| `VectorModel.Reserved` | SimpleVector/include/simple_vector.h:233-243 | contents unchanged; a no-op when `n <= capacity`, otherwise the capacity becomes exactly `n`; the invariant is kept |
| `VectorModel.PushedBack` | SimpleVector/include/simple_vector.h:174-180 | size grows by one, the new last element is `x`, earlier elements are unchanged; the capacity is unchanged unless the vector was full, and then it becomes `max(2 * capacity, 1)` |
| `VectorModel.PoppedBack` | SimpleVector/include/simple_vector.h:183-187 | on a non-empty state, the last element goes and the rest and the capacity stay |
| `VectorModel.Inserted` | SimpleVector/include/simple_vector.h:206-219 | position `i` holds `x`, elements before it are unchanged, elements from `i` on move up one place; the capacity grows by the doubling policy only when full |
| `VectorModel.InsertedFromOwnElement` | SimpleVector/include/simple_vector.h:206-219 | Insert as written when the value is a reference to element `j` of the same, non-full vector: the shift happens before the read, so the elements around position `i` are placed as in `Inserted` and capacity is kept |
| `VectorModel.InsertFromOwnElementReads` | SimpleVector/include/simple_vector.h:212-216 | the as-written Insert stores element `j` when `j <= i`, but element `j - 1` when `j > i`, so it differs from the intended insertion whenever those two elements differ |
| `VectorModel.InsertFromOwnElementExample` | SimpleVector/include/simple_vector.h:212-216 | from {1, 2, 3} with capacity 4, inserting `v[1]` at the front gives {1, 1, 2, 3} as written, against the intended {2, 1, 2, 3} |
| `VectorModel.Erased` | SimpleVector/include/simple_vector.h:222-230 | the element at `i` goes, elements after it move down one place, the capacity is unchanged |
| `VectorModel.Resized` | SimpleVector/include/simple_vector.h:149-162 | the size becomes `n`; existing elements below `n` are kept and new positions hold `Default`; the capacity becomes `max(capacity, n)`, an exact reserve with no doubling |
| `VectorModel.Cleared` | SimpleVector/include/simple_vector.h:141-146 | no elements remain, the capacity is unchanged |
| `VectorModel.PushBackPopBack` | SimpleVector/include/simple_vector.h:174-187 | PopBack after PushBack restores the contents, and the capacity never shrinks |
| `VectorModel.InsertThenErase` | SimpleVector/include/simple_vector.h:206-230 | erasing at the index Insert returned restores the contents |
| `VectorModel.InsertAtEndIsPushBack` | SimpleVector/include/simple_vector.h:206-219 | inserting at `end()` needs no shift and is the same transition as PushBack |
| `VectorModel.ResizeIdempotent` | SimpleVector/include/simple_vector.h:149-162 | resizing to the current size changes nothing, and resizing twice to `n` equals resizing once |
| `VectorModel.ResizeGrowThenShrink` | SimpleVector/include/simple_vector.h:149-162 | growing by Resize and shrinking back restores the contents |
| `VectorModel.DoublingFromEmpty` | SimpleVector/include/simple_vector.h:174-180 | pushing `xs` onto an empty vector yields exactly `xs`, with a power-of-two capacity that is at least the size and less than twice the size |
| `Vector.ReserveProxyObj.GetCapacity` | SimpleVector/include/simple_vector.h:13-24 | the token's capacity, which determines the token |
| `Vector.Reserve` | SimpleVector/include/simple_vector.h:27-29 | the token carries exactly the requested capacity |
| `Vector.SimpleVector.constructor` | SimpleVector/include/simple_vector.h:38 | empty, capacity 0 |
| `Vector.SimpleVector.WithReserve` | SimpleVector/include/simple_vector.h:41-43 | empty, with exactly the token's capacity |
| `Vector.SimpleVector.OfSize` | SimpleVector/include/simple_vector.h:46-49 | `n` default values, capacity `n` |
| `Vector.SimpleVector.Filled` | SimpleVector/include/simple_vector.h:52-55 | `n` copies of `value`, capacity `n` |
| `Vector.SimpleVector.FromList` | SimpleVector/include/simple_vector.h:58-61 | the list's elements in order, capacity equal to the list's length |
| `Vector.SimpleVector.Copy` | SimpleVector/include/simple_vector.h:64-67 | same elements and same capacity as the source, in a fresh block, so the two vectors are independent |
| `Vector.SimpleVector.Move` | SimpleVector/include/simple_vector.h:70-74 | takes the source's block, elements and capacity; the source is left with size and capacity 0 and a fresh empty block, so it can be reused |
| `Vector.SimpleVector.CopyAssign` | SimpleVector/include/simple_vector.h:77-83 | the target gets the source's elements and capacity in a fresh block, and the source is unchanged; self-assignment changes nothing |
| `Vector.SimpleVector.MoveAssign` | SimpleVector/include/simple_vector.h:86-93 | for distinct vectors the target takes over the source's block and state and the source is left with size and capacity 0 and a fresh empty block, so it can be reused; self-assignment changes nothing |
| `Vector.SimpleVector.Swap` | SimpleVector/include/simple_vector.h:246-250 | the two vectors exchange size, capacity and block |
| `Vector.SimpleVector.GetSize` | SimpleVector/include/simple_vector.h:100-102 | the number of live elements |
| `Vector.SimpleVector.GetCapacity` | SimpleVector/include/simple_vector.h:105-107 | the capacity, never below the size |
| `Vector.SimpleVector.IsEmpty` | SimpleVector/include/simple_vector.h:110-112 | true exactly when there are no live elements |
| `Vector.SimpleVector.Begin` | SimpleVector/include/simple_vector.h:253-255 | together with `End`, the range covers exactly the live elements |
| `Vector.SimpleVector.End` | SimpleVector/include/simple_vector.h:257-259 | one past the last live element |
| `Vector.SimpleVector.Get` | SimpleVector/include/simple_vector.h:120-123 | for an index below the size, the element at that index |
| `Vector.SimpleVector.Set` | SimpleVector/include/simple_vector.h:115-118 | for an index below the size, replaces that element only |
| `Vector.SimpleVector.At` | SimpleVector/include/simple_vector.h:133-138 | fails with out-of-range exactly when `index >= size`, otherwise yields element `index` |
| `Vector.SimpleVector.SetAt` | SimpleVector/include/simple_vector.h:126-131 | fails exactly when `index >= size` and then changes nothing; otherwise replaces element `index` only |
| `Vector.SimpleVector.Clear` | SimpleVector/include/simple_vector.h:141-146 | the state moves as `Cleared`: size 0, same capacity and block |
| `Vector.SimpleVector.Reserve` | SimpleVector/include/simple_vector.h:233-243 | the state moves as `Reserved`; a new block exactly when the capacity grows |
| `Vector.SimpleVector.Resize` | SimpleVector/include/simple_vector.h:149-162 | the state moves as `Resized`; a new block exactly when `n` exceeds the capacity |
| `Vector.SimpleVector.PushBack` | SimpleVector/include/simple_vector.h:165-180 | the state moves as `PushedBack`; a new block exactly when the vector was full |
| `Vector.SimpleVector.PopBack` | SimpleVector/include/simple_vector.h:183-187 | on a non-empty vector the state moves as `PoppedBack`, and the block is kept |
| `Vector.SimpleVector.Insert` | SimpleVector/include/simple_vector.h:190-219 | the state moves as `Inserted`; returns `pos`, where the new element now is |
| `Vector.SimpleVector.InsertOwnElement` | SimpleVector/include/simple_vector.h:206-219 | running the source's steps in order (shift, then read the referenced slot) moves the state as `InsertedFromOwnElement` and keeps the block |
| `Vector.SimpleVector.Erase` | SimpleVector/include/simple_vector.h:222-230 | the state moves as `Erased`; returns `pos`, which now holds the element that followed the erased one, or is `end()` |
| `Vector.Equal` | SimpleVector/include/simple_vector.h:285-287 | true exactly when the two vectors have the same elements in the same order, whatever their capacities |
| `Vector.NotEqual` | SimpleVector/include/simple_vector.h:290-292 | true exactly when the contents differ |
| `Vector.Less` | SimpleVector/include/simple_vector.h:295-297 | the lexicographic order of the contents, decided at the first difference |
| `Vector.LessOrEqual` | SimpleVector/include/simple_vector.h:300-302 | `!(rhs < lhs)` is the same as less-than or equal contents |
| `Vector.Greater` | SimpleVector/include/simple_vector.h:305-307 | `rhs < lhs`: the right vector's contents come first |
| `Vector.GreaterOrEqual` | SimpleVector/include/simple_vector.h:310-312 | `!(lhs < rhs)` is the same as greater-than or equal contents |

## Findings

| source | as written | input that shows it | evidently intended | confidence | as-written member | corrected member |
|---|---|---|---|---|---|---|
| SimpleVector/include/simple_vector.h:206-219 | `Insert` takes `value` by reference and reads it only after `std::move_backward` has shifted the tail, so a reference to an element after the insertion point reads that element's left neighbour | `{1, 2, 3}` with capacity 4, `Insert(begin(), v[1])` gives `{1, 1, 2, 3}` | the value as it was at the call, giving `{2, 1, 2, 3}` | not executed; high (follows from the order of the statements) | `VectorModel.InsertFromOwnElementExample` | `VectorModel.Inserted` |

The as-written behaviour is `VectorModel.InsertedFromOwnElement`. `Vector.SimpleVector.InsertOwnElement` runs it in the source's order. `VectorModel.InsertFromOwnElementReads` proves the difference for all inputs. The rest of the model uses `Inserted`, which takes the value at the time of the call.

## Left out

- Object lifetime is not modelled. This covers explicit destructor calls, placement `new`, `new[]`/`delete[]`, and the destructors of both classes. Destroying an element only shrinks the live prefix. So the destroy loops in `Clear`, in the shrinking branch of `Resize` and in `Reserve` have no counterpart. Double destruction and use after destruction are not modelled either.
- Out-of-memory failures from allocation are not modelled. The allocator is outside the model, and every allocation succeeds. Copy assignment's strong guarantee under such a failure is therefore not stated.
- `size_t` is an unbounded `nat`. The wrap-around of `2 * capacity_` near the top of `size_t` is not modelled. Such a vector could not be allocated.
- The element type is `int` rather than a template parameter. The copy and move overloads of `PushBack` and `Insert` collapse to one member each, because a moved-from `int` keeps its value.
- Dafny has no const references. So the const and non-const overloads of `begin` and `end` (with `cbegin`/`cend`) collapse to `Begin` and `End`. `operator[]` and `At` are split by use instead: `Get` and `At` read, and `Set` and `SetAt` write.
- Vector.SimpleVector.Insert takes its value by value, so it models the intended behaviour. The aliased-argument behaviour as written is modelled separately, under "## Findings", for a vector that is not full. When the vector is full, `Insert` and `PushBack` with a reference to one of the vector's own elements read it after `Reserve` has freed the old block. That is use after free, a lifetime matter, and is not modelled.
- Pointer identity is replaced. Iterators are indices, and the self-assignment checks compare object identity.
- Debug `assert`s become `requires` clauses. The unchecked `operator[]` of `ArrayPtr` also requires an in-bounds index, because the block's length is not recorded in the source.
- `ArrayPtr`'s deleted copy constructor and copy assignment are compile-time restrictions and have no counterpart.
- `[[nodiscard]]` and `noexcept` have no runtime behaviour and are not modelled.
- The vector keeps its block as an array field rather than through an `ArrayPtr` object. The ownership transfers of `Reserve` and the move operations appear as reassignments of that field.
