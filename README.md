# SimpleVector in Dafny

A model of `SimpleVector<Type>`, a growable contiguous array, and of the
`Reserve` tag that selects its reserving constructor. The vector keeps three
fields, as the original does: `size` (live elements), `capacity` (allocated
slots) and `head` (the owned buffer, a Dafny `array<T>` of `capacity` slots).
`Valid()` is the object invariant `size <= capacity == head.Length`, and
`Elements()` is the live range `head[..size]`, the range `[begin(), end())`.
Every mutator is a method whose contract gives the new `Elements()` as a
sequence equation over the old one, the new capacity exactly, and whether the
buffer was reallocated (`fresh(head)`) or kept (`head == old(head)`).

Iterators (`Type*`) are indices into `[0, size]`. `Type{}`, the
value-initialised element, is the constant `defaultValue` that every
constructor receives. Slots outside the live range are unspecified, as in a
freshly allocated buffer.

Files:
- `wrappers.dfy`: `Result` and `Outcome`, the error results of the checked accessors.
- `growth.dfy`: the doubling rule and what k appends do to the capacity.
- `algorithms.dfy`: `std::fill`, `std::copy`/`std::move` into a new buffer, and the
  in-place shifts of `Insert` (`std::move_backward`) and `Erase` (`std::move`).
- `simple_vector.dfy`: the `Reserve` tag and the class `SimpleVector`.
- `comparisons.dfy`: the free operators `==`, `!=`, `<`, `<=`, `>`, `>=` over the
  live elements of two vectors.
- `scenarios.dfy`: sequences of calls and what the contracts let a caller conclude.

The moved-from vector ends with size 0 and capacity 0, as in the code (the
move constructor swaps with a default instance). Where the code departs
from its own comments or from evident intent, the model carries both
versions (see Findings):
- the accessors as written (`AtAsWritten`, `SetAtAsWritten`) accept
  `index == size`; the documented ones (`At`, `SetAt`) reject it;
- `operator==` and `operator!=` as written (`EqualAsWritten`,
  `NotEqualAsWritten`) compare lhs with the first slots of rhs's buffer,
  whatever rhs's size; the intended ones (`Equal`, `NotEqual`) compare
  sizes and elements, and the scenarios use them except where they show
  the difference.

## Model

| member | source | states |
|---|---|---|
| `Growth.NextCapacity` | simple-vector/simple_vector.h:100-105 | the grown capacity exceeds the old one and stays a power of two (0 grows to 1) |
| `Growth.CapacityAfterPush` | simple-vector/simple_vector.h:95-106 | one append leaves room for the new element, never shrinks the capacity, and keeps it when a slot was free |
| `Growth.CapacityAfterPushes` | simple-vector/simple_vector.h:94-107 | after k appends the capacity holds all size + k elements |
| `Growth.PushKeepsTight` | simple-vector/simple_vector.h:94-107 | one append keeps the capacity the least power of two that holds the elements |
| `Growth.PushesKeepTight` | simple-vector/simple_vector.h:94-107 | any number of appends keeps the capacity tight |
| `Growth.PushesFromEmpty` | simple-vector/simple_vector.h:94-107 | from empty, k >= 1 appends give the least power of two c with k <= c (c / 2 < k) |
| `Algorithms.Repeat` | simple-vector/simple_vector.h:37-43 | n copies of a value: length n, every element equal to it |
| `Algorithms.Fill` | simple-vector/simple_vector.h:39 | std::fill writes the value into [from, to) and nothing else |
| `Algorithms.CopyInto` | simple-vector/simple_vector.h:48 | std::copy puts the source elements at the front of the destination and leaves the rest |
| `Algorithms.ShiftRight` | simple-vector/simple_vector.h:124 | std::move_backward moves [from, to) one slot right, leaving the slots outside [from, to] alone |
| `Algorithms.InsertInto` | simple-vector/simple_vector.h:124-125 | shifting right and writing the value inserts it at the index among the first len slots |
| `Algorithms.ShiftLeft` | simple-vector/simple_vector.h:150 | std::move moves [from + 1, to) one slot left, leaving the slots outside [from, to) alone |
| `SimpleVectors.Reserve` | simple-vector/simple_vector.h:11-21 | the tag carries the requested capacity |
| `SimpleVectors.SimpleVector.constructor` | simple-vector/simple_vector.h:29 | the default vector is empty with capacity 0 |
| `SimpleVectors.SimpleVector.OfSize` | simple-vector/simple_vector.h:32-34 | n default elements, capacity n, fresh buffer |
| `SimpleVectors.SimpleVector.Filled` | simple-vector/simple_vector.h:37-43 | n copies of the value, capacity n, fresh buffer |
| `SimpleVectors.SimpleVector.FromList` | simple-vector/simple_vector.h:46-52 | the listed elements in order, capacity equal to their number |
| `SimpleVectors.SimpleVector.Reserving` | simple-vector/simple_vector.h:63-68 | no elements, capacity n, the whole buffer default-filled |
| `SimpleVectors.SimpleVector.Copy` | simple-vector/simple_vector.h:54-61 | same elements as the source, capacity equal to the source's size, an independent fresh buffer |
| `SimpleVectors.SimpleVector.Move` | simple-vector/simple_vector.h:70-72 | takes the source's buffer, elements and capacity; the source ends with no elements and capacity 0 |
| `SimpleVectors.SimpleVector.Assign` | simple-vector/simple_vector.h:74-85 | from a non-empty rhs: rhs's elements in a fresh buffer of capacity rhs.size; from an empty rhs: no elements, same buffer and capacity; self-assignment changes nothing |
| `SimpleVectors.SimpleVector.PushBack` | simple-vector/simple_vector.h:94-107 | elements become old + [item]; capacity kept when a slot was free, else doubled (0 to 1) in a fresh buffer |
| `SimpleVectors.SimpleVector.Insert` | simple-vector/simple_vector.h:120-137 | elements become old[..i] + [v] + old[i..], returns i, same growth rule as PushBack |
| `SimpleVectors.SimpleVector.PopBack` | simple-vector/simple_vector.h:140-143 | on a non-empty vector drops the last element; capacity and buffer kept |
| `SimpleVectors.SimpleVector.Erase` | simple-vector/simple_vector.h:146-154 | elements become old[..i] + old[i + 1..] and i is returned; no-op on an empty vector; capacity and buffer kept |
| `SimpleVectors.SimpleVector.Swap` | simple-vector/simple_vector.h:157-161 | exchanges buffers, sizes, capacities and so the elements of the two vectors |
| `SimpleVectors.SimpleVector.GetSize` | simple-vector/simple_vector.h:164-166 | the number of live elements |
| `SimpleVectors.SimpleVector.GetCapacity` | simple-vector/simple_vector.h:169-171 | the buffer length, at least the number of elements |
| `SimpleVectors.SimpleVector.IsEmpty` | simple-vector/simple_vector.h:174-176 | true exactly when there are no elements |
| `SimpleVectors.SimpleVector.At` | simple-vector/simple_vector.h:196-204 | the element at index when index < size, otherwise an out_of_range error (the documented bound) |
| `SimpleVectors.SimpleVector.SetAt` | simple-vector/simple_vector.h:178-185 | writing through the returned reference replaces exactly the element at index < size; otherwise out_of_range and nothing changes |
| `SimpleVectors.SimpleVector.SetAtAsWritten` | simple-vector/simple_vector.h:198-204 | writing through the reference as written succeeds for index <= size; at index == size it fills the slot after the elements and leaves the elements unchanged |
| `SimpleVectors.SimpleVector.AtAsWritten` | simple-vector/simple_vector.h:188-194 | the test as written accepts index <= size, and index == size yields the unused slot after the elements |
| `SimpleVectors.SimpleVector.Clear` | simple-vector/simple_vector.h:213-215 | no elements; capacity and buffer kept |
| `SimpleVectors.SimpleVector.Resize` | simple-vector/simple_vector.h:217-234 | above the capacity: exactly newSize slots, old elements then default tail; within it: default tail in place; below the size: truncation; capacity never drops |
| `SimpleVectors.SimpleVector.Reserve` | simple-vector/simple_vector.h:235-242 | elements unchanged; capacity becomes the larger of the old capacity and the request, a fresh buffer only on growth |
| `Comparisons.EqualAsWritten` | simple-vector/simple_vector.h:287-289 | operator== as written holds exactly when lhs equals the first size(lhs) slots of rhs's buffer, live or not |
| `Comparisons.NotEqualAsWritten` | simple-vector/simple_vector.h:292-294 | operator!= as written holds exactly when lhs differs from the first size(lhs) slots of rhs's buffer |
| `Comparisons.EqualAsWrittenIgnoresTail` | simple-vector/simple_vector.h:288 | as written, a vector compares equal (and not unequal) to itself with an element appended |
| `Comparisons.EqualAsWrittenReadsDeadSlots` | simple-vector/simple_vector.h:288 | as written, a vector compares equal to one whose last element was popped, since the popped value is still in the buffer |
| `Comparisons.Equal` | simple-vector/simple_vector.h:287-289 | the intended operator== (sizes, then elements) holds exactly when the sequences are equal |
| `Comparisons.NotEqual` | simple-vector/simple_vector.h:292-294 | the intended operator!= holds exactly when the sequences differ |
| `Comparisons.LexicographicallyBeforeCases` | simple-vector/simple_vector.h:297-299 | lexicographic order is decided by the first elements when one is below the other, otherwise by the rests; an empty lhs is before any non-empty rhs |
| `Comparisons.Less` | simple-vector/simple_vector.h:297-299 | operator< (std::lexicographical_compare) holds exactly when, after an equivalent common prefix, lhs ends first or its next element is smaller |
| `Comparisons.LessTrichotomy` | simple-vector/simple_vector.h:297-299 | over a strict total element order exactly one of lhs < rhs, lhs == rhs, rhs < lhs holds |
| `Comparisons.LessTransitive` | simple-vector/simple_vector.h:297-299 | over a strict total element order operator< is transitive |
| `Comparisons.LessEq` | simple-vector/simple_vector.h:302-304 | operator<= is !(rhs < lhs); over a strict total element order it means lhs < rhs or lhs == rhs |
| `Comparisons.Greater` | simple-vector/simple_vector.h:307-309 | operator> is rhs < lhs; over a strict total element order it means neither lhs < rhs nor lhs == rhs |
| `Comparisons.GreaterEq` | simple-vector/simple_vector.h:312-314 | operator>= is !(lhs < rhs); over a strict total element order it means rhs < lhs or lhs == rhs |
| `Scenarios.PushBackEach` | simple-vector/simple_vector.h:94-107 | appending xs to an empty vector yields xs in order, with the least power-of-two capacity holding them |
| `Scenarios.ReserveThenPush` | simple-vector/simple_vector.h:235-242 | Reserve(4) then four appends keep capacity 4; a fifth gives capacity 8 and elements 1..5 |
| `Scenarios.EraseSecond` | simple-vector/simple_vector.h:146-154 | erasing position 1 of {10, 20, 30} returns 1 and leaves {10, 30} |
| `Scenarios.InsertFront` | simple-vector/simple_vector.h:120-137 | inserting 5 at position 0 of {10, 20} returns 0, reads back 5, leaves {5, 10, 20} |
| `Scenarios.CopyIsolation` | simple-vector/simple_vector.h:54-61 | a copy equals its source, and appending to the copy leaves the source unchanged |
| `Scenarios.MoveLeavesEmpty` | simple-vector/simple_vector.h:70-72 | moving out of {7, 8} gives {7, 8} and leaves the source with size 0 and capacity 0 |
| `Scenarios.EqualityAfterAppend` | simple-vector/simple_vector.h:287-289 | equal from the same list; after appending to rhs, == as written stays true, element-wise equality becomes false |
| `Scenarios.EqualityAfterPopBack` | simple-vector/simple_vector.h:287-294 | after popping rhs's last element, == as written stays true and != as written false; the intended operators answer false and true |
| `Scenarios.OnePastEnd` | simple-vector/simple_vector.h:179-185 | on size 1, capacity 4, index 1 is an error for reads and writes under the documented bound; as written the read yields the reserved default 0 and the write succeeds without changing the elements |
| `Scenarios.ResizeUpThenDown` | simple-vector/simple_vector.h:217-234 | resizing {1, 2} to 4 pads with zeros; resizing to 1 truncates and keeps capacity 4 |

## Findings

| source | as written | input that shows it | evidently intended | confidence | as-written member | corrected member |
|---|---|---|---|---|---|---|
| simple-vector/simple_vector.h:181 | `operator[]` and `At` (also :190, :200) reject only `index > size_` | a vector of size 1 and capacity 4, index 1: the read is accepted and returns the unused slot, the write is accepted and fills it (`Scenarios.OnePastEnd`; the write as written is `SimpleVectors.SimpleVector.SetAtAsWritten`, corrected by `SimpleVectors.SimpleVector.SetAt`); with size == capacity both go past the buffer | reject `index >= size`, as the comment at :197 and the error message say | high, not executed | `SimpleVectors.SimpleVector.AtAsWritten` | `SimpleVectors.SimpleVector.At` |
| simple-vector/simple_vector.h:288 | `operator==` calls the three-iterator `std::equal`, which compares only the first `size(lhs)` elements of rhs | lhs {1, 2, 3}, rhs {1, 2, 3} after `rhs.PopBack()`: true, because the read runs into rhs's dead slot, which still holds 3 (`Comparisons.EqualAsWrittenReadsDeadSlots`, `Scenarios.EqualityAfterPopBack`); lhs {1, 2, 3}, rhs {1, 2, 3, 4}: true (`Comparisons.EqualAsWrittenIgnoresTail`, `Scenarios.EqualityAfterAppend`); `operator!=` (:293) inherits the defect, as written `Comparisons.NotEqualAsWritten`, corrected `Comparisons.NotEqual` | equal sizes and equal elements | high, not executed | `Comparisons.EqualAsWritten` | `Comparisons.Equal` |

## Left out

- The buffer class `ArrayPtr` (`array_ptr.h`) is not part of this model: its allocation is a Dafny `new T[n]`, its swap is an exchange of array references, and its release of memory is left to the garbage collector.
- Allocation failure (`bad_alloc`) and strong exception safety: no allocation fails in the model.
- The lvalue overloads `PushBack(const Type&)` (:89-92) and `Insert(ConstIterator, const Type&)` (:114-118) call themselves rather than the rvalue versions; only the rvalue semantics are modelled, and Dafny's value semantics make copy and move the same.
- The const `At` (:208-210) calls itself; both `At` overloads and both `operator[]` overloads are modelled by `At`, `AtAsWritten` and `SetAt`.
- `begin()`, `end()`, `cbegin()`, `cend()`: iterators are indices and the live range is `Elements()`; whether they are null on an empty vector is not modelled.
- `size_t` is unbounded `nat`: the overflow of `capacity_ * 2` on enormous capacities is not modelled.
- The `assert` macros (:115, :121, :141, :147) are `requires` clauses, not runtime checks.
- SimpleVectors.SimpleVector.Erase: requires `index < size` on a non-empty vector; the source's assert also admits `end()`, for which the move range is reversed.
- SimpleVectors.SimpleVector.AtAsWritten: requires that `index == size` lies inside the buffer; reading one past a full buffer is undefined behaviour.
- Comparisons.EqualAsWritten: requires that lhs is no longer than rhs's buffer (its capacity); a longer lhs makes `std::equal` read past the end of that buffer. The same holds for Comparisons.NotEqualAsWritten.
- The element order is a parameter `lt` standing for `Type`'s `operator<`; the ordering lemmas assume it is a strict total order, and element equality is Dafny's `==`.
- The destructor: memory is not released explicitly.
- `Type{}` is one value per type in the original, but `defaultValue` is a constant of each vector, so two vectors of the same `T` could be given different ones; `Swap`, `Move` and `Assign` leave each vector's own `defaultValue` in place, which matters only when they differ.
