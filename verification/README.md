# Circular-buffer deque

A Dafny model of `custom::deque<T>` from `deque.h`. The deque is a double-ended queue stored in one block of `numCapacity` slots. It has `numElements` live elements, and `iaFront` is the slot that holds the logical front. Logical index `id` lives in slot `(id + iaFront) mod numCapacity`, so the run of live slots can go past the end of storage and carry on at slot 0.

The model is functional. A deque is an immutable value `Deque(data, numCapacity, numElements, iaFront)`, where `data` is a `seq<T>` of length `numCapacity`. `Valid` is the class invariant. `Elements` is the abstraction function that gives the live elements in logical order, and every operation's contract says how `Elements` changes.

Modules:

- `DequeResult` (`result.dfy`): the errors `EmptyContainer` and `IndexOutOfRange`, and `Result<T>`.
- `CircularDeque` (`deque.dfy`): the state and invariant, index translation, construction, copying, element access, `size`/`empty`, growth, and push, pop and clear.
- `DequeRefinement` (`refinement.dfy`): a plain-sequence reference meaning for a series of pushes and pops. It proves that the circular buffer agrees with the reference on every series, plus the capacity-4 wrap-around scenario.
- `DequeIterator` (`iterator.dfy`): an iterator is a logical position plus an abstract deque identity. This module covers pointer-style arithmetic, comparison, dereference through the translation, and a traversal from `begin()` to `end()`.
- `AsWritten` (`as_written.dfy`): the bodies in `deque.h` that contradict their own comments, modelled exactly as written. Each one comes with a concrete input on which it gives a different answer from the corrected member (see Findings).

The source is an unfinished revision. `push_front`, `push_back`, `pop_front`, `pop_back` and `clear` have empty bodies. The model gives them the behaviour their comments and the class invariant call for, and routes every slot they touch through `IaFromID`.

Storage made by `new T[n]` is default-initialised, which leaves scalars such as `int` indeterminate. The model cannot make a `T` by itself, so the constructors, `CopyOf`, `Assign` and `Resize` take a `blank: T` parameter that stands for whatever a fresh slot holds. No contract depends on what `blank` is. When a push has to grow the storage, it passes the pushed value as the filler for the new dead slots. No operation ever reads those slots before writing them.

Growth policy: the comment above `resize` says the capacity doubles, and that an empty deque grows to 2 slots. The body never doubles anything: its zero branch fires on a request of 0 and allocates one slot whatever the current capacity. The model takes the 1 for an empty deque from the body and the doubling of any other capacity from the comment. The contract claims only that the new capacity is larger, and exactly double when the old capacity was non-zero.

Copy and assignment differ on purpose. The copy constructor keeps the original's capacity and front slot. Assignment builds fresh storage of the right-hand side's capacity and normalises the front to slot 0. Both give exactly the original's logical sequence.

## Model

| member | source | states |
|---|---|---|
| `CircularDeque.IaFromID` | deque.h:106-117 | the slot for a logical index is in `[0, numCapacity)`; it is `iaFront + id` while that is still in storage, and otherwise the value after wrapping exactly once (down by `numCapacity` past the end, up by it below 0) |
| `CircularDeque.LemmaIaFromIDInjective` | deque.h:29-38 | distinct logical indices below the capacity occupy distinct slots, so the window never overlaps itself |
| `CircularDeque.Elements` | deque.h:29-38 | the abstract sequence has exactly `numElements` elements |
| `CircularDeque.Default` | deque.h:48 | the default deque is valid and empty, with capacity 0, front 0 and no storage |
| `CircularDeque.WithCapacity` | deque.h:236-247 | the sized deque is valid and empty with front 0; capacity `newCapacity` with every slot holding `blank` when positive, and no storage otherwise |
| `CircularDeque.CopyOf` | deque.h:252-264 | the copy has the original's capacity, count, front slot and logical sequence, even when the original's window wraps |
| `CircularDeque.Assign` | deque.h:270-291 | the assigned deque has the right-hand side's capacity, count and logical sequence, with front 0 and element `k` in slot `k` |
| `CircularDeque.Front` | deque.h:298-316 | fails with EmptyContainer exactly when the deque is empty; otherwise yields logical element 0, which is the element in slot `iaFront` |
| `CircularDeque.Back` | deque.h:322-335 | fails with EmptyContainer exactly when the deque is empty; otherwise yields the last logical element |
| `CircularDeque.At` | deque.h:341-346 | fails with IndexOutOfRange exactly when `index >= size`; otherwise yields logical element `index` |
| `CircularDeque.Update` | deque.h:347-352 | writing through the subscript changes only logical element `index` and keeps capacity and front; an index at or past the end fails with IndexOutOfRange |
| `CircularDeque.Size` | deque.h:95 | the size is the length of the abstract sequence |
| `CircularDeque.IsEmpty` | deque.h:96 | true exactly when the abstract sequence is empty |
| `CircularDeque.NewCapacity` | deque.h:386-398 | the growth capacity is strictly larger than the old one, and double it when the old one is non-zero |
| `CircularDeque.Resize` | deque.h:392-411 | the result is valid with the requested capacity (1 for 0), front 0, the same count and the same logical sequence, with element `k` relocated to slot `k` |
| `CircularDeque.Grow` | deque.h:386-390 | growth strictly raises the capacity, leaves room for one more element, resets the front to 0 and keeps the logical sequence |
| `CircularDeque.PushBack` | deque.h:373-376 | the abstract sequence gains `t` at the back; capacity grows by the policy only when the deque was full; the front stays put otherwise |
| `CircularDeque.PushFront` | deque.h:381-384 | the abstract sequence gains `t` at the front; capacity grows only when full; without growth the front steps back one slot, from 0 to the last slot |
| `CircularDeque.PopBack` | deque.h:357-360 | fails with EmptyContainer exactly when empty; otherwise drops the last element and keeps capacity and front |
| `CircularDeque.PopFront` | deque.h:365-368 | fails with EmptyContainer exactly when empty; otherwise drops the first element and advances the front one slot, from the last slot to 0 |
| `CircularDeque.Clear` | deque.h:86-88 | the deque becomes empty with front 0 and keeps its capacity |
| `DequeRefinement.Step` | deque.h:80-90 | one push, pop or clear on the buffer keeps the invariant and agrees with the plain-sequence reference: the same elements, or the same error on the same inputs |
| `DequeRefinement.Run` | deque.h:80-90 | any series of pushes, pops and clears agrees with the reference series: success in the same cases, the same elements in order, and the same error |
| `DequeRefinement.LemmaSizeIsNetCount` | deque.h:80-95 | without `clear`, a successful series leaves the size at the starting size plus insertions minus removals |
| `DequeRefinement.LemmaRunFailsOnlyWhenEmpty` | deque.h:89-90 | a failing series fails with EmptyContainer, and only because it contains a removal |
| `DequeRefinement.LemmaWrapAroundScenario` | deque.h:29-38 | capacity 4: push back A, B, C, D, pop front, push back E gives front B, back E, size 4 and elements B, C, D, E, with the window wrapped (front slot 1, E in slot 0) and no growth |
| `DequeRefinement.LemmaGrowthKeepsOrder` | deque.h:392-411 | pushing onto a full deque raises the capacity and keeps every earlier element in place, with the new element last |
| `DequeIterator.DefaultIterator` | deque.h:142 | the default iterator is at position 0 of no deque |
| `DequeIterator.Begin` | deque.h:64 | `begin()` is position 0 of its deque and, when the deque is not empty, dereferences to the front element |
| `DequeIterator.End` | deque.h:65 | `end()` is position `size` of its deque, one past the back, and cannot be dereferenced |
| `DequeIterator.Equal` | deque.h:167 | `==` holds exactly when the two iterators point to the same deque at the same position |
| `DequeIterator.NotEqual` | deque.h:168-169 | `!=` is exactly the negation of `==` |
| `DequeIterator.Deref` | deque.h:174-181 | dereference fails with IndexOutOfRange exactly outside `[0, size)`; otherwise yields the logical element at the iterator's position |
| `DequeIterator.LemmaDerefSurvivesGrowth` | deque.h:226-228 | an iterator dereferences to the same element before and after the deque grows |
| `DequeIterator.Distance` | deque.h:186-190 | advancing the second iterator by the distance reaches the first iterator's position |
| `DequeIterator.Advance` | deque.h:191-195 | `+=` moves the position by exactly `offset`, unclamped, and keeps the deque |
| `DequeIterator.Increment` | deque.h:196-200 | prefix `++` is one position forward on the same deque |
| `DequeIterator.PostIncrement` | deque.h:201-207 | postfix `++` yields the prior iterator and moves one position forward on the same deque |
| `DequeIterator.Decrement` | deque.h:208-212 | prefix `--` is one position back on the same deque |
| `DequeIterator.PostDecrement` | deque.h:213-218 | postfix `--` yields the prior iterator and moves one position back on the same deque |
| `DequeIterator.LemmaAdvanceByDistance` | deque.h:186-195 | on one deque, `it2 += (it1 - it2)` gives `it1` |
| `DequeIterator.LemmaIncrementDecrementInverse` | deque.h:196-212 | `++` then `--`, or `--` then `++`, returns to the start |
| `DequeIterator.LemmaEndMinusBeginIsSize` | deque.h:64-65 | `end() - begin()` is the size, and `begin() == end()` exactly when the deque is empty |
| `DequeIterator.Walk` | deque.h:196-200 | `k` dereference-and-step rounds read `k` elements |
| `DequeIterator.LemmaWalkReadsElements` | deque.h:174-200 | `k` rounds from position `i` read logical elements `i .. i+k` in order |
| `DequeIterator.LemmaBeginToEndReadsElements` | deque.h:64-65 | iterating from `begin()` to `end()` reads exactly the logical sequence, whatever the wrap state |
| `AsWritten.LemmaIaFromIDAsWrittenLeavesStorage` | deque.h:117 | with capacity 5, front 3 and index 2, the written expression gives slot 5, outside storage; the translation gives slot 0 |
| `AsWritten.LemmaEmptyAsWrittenIsInverted` | deque.h:96 | on every valid deque, the written `empty()` is the negation of the intended one |
| `AsWritten.LemmaBackAsWrittenFabricates` | deque.h:322-335 | whatever the fresh allocation holds, the written `back()` gives the same answer on the deques 1 and 2, so it is wrong on at least one of them |
| `AsWritten.LemmaSubscriptAsWrittenIgnoresFront` | deque.h:341-352 | on storage `[2, 1]` with front 1 (the deque 1, 2), the written subscript reads 2 at index 0 |
| `AsWritten.LemmaResizeAsWrittenLosesWrappedElements` | deque.h:400-404 | a wrapped window (front 3 of 4, elements 1, 2) is not copied by the written loop, so the grown deque reads two unwritten slots, never 1, 2 |
| `AsWritten.LemmaResizeZeroAsWrittenDropsElements` | deque.h:394-397 | growing the full deque 5, 6 through the written `resize(0)` leaves 2 elements in 1 slot, breaking the invariant, and copies nothing; the intended growth keeps 5, 6 and raises the capacity |
| `AsWritten.LemmaCopyAsWrittenLosesElements` | deque.h:252-261 | the deques 9 and 8 (storage `[4, 9]` and `[4, 8]`, front 1) have the same written copy, which holds an unwritten slot, so at least one copy is wrong |
| `AsWritten.LemmaAssignAsWrittenReordersElements` | deque.h:280-288 | assigning the deque 9 (storage `[4, 9]`, front 1) to a fresh two-slot deque gives the deque 4 |
| `AsWritten.LemmaAssignAsWrittenMismatchesCapacity` | deque.h:280-285 | assigning a two-element deque to a four-slot deque gives two slots of storage under a recorded capacity of 4, which breaks the invariant |
| `AsWritten.LemmaSelfAssignAsWrittenEmpties` | deque.h:273-288 | assigning the deque 7 to itself leaves it empty, because zeroing the count at line 273 also zeroes the aliased right-hand side's count |
| `AsWritten.LemmaBeginEndAsWrittenCoincide` | deque.h:64-65 | on a non-empty deque, the written `begin()` and `end()` are zero apart and point to no deque |
| `AsWritten.LemmaIteratorEqualAsWrittenIgnoresPosition` | deque.h:167 | on a one-element deque, the written `==` reports `begin() == end()` |
| `AsWritten.LemmaIteratorNotEqualAsWrittenIgnoresPosition` | deque.h:168-169 | on a one-element deque, the written `!=` reports `begin() != end()` false, so a loop that runs while `it != end()` reads nothing |
| `AsWritten.LemmaDerefAsWrittenIgnoresPosition` | deque.h:174-181 | on the deque 1, 2, the written `*` at position 1 reads 1 |

## Left out

- Memory management is not modelled: `new[]`, `delete[]`, the empty destructor, and the allocations that leak in `back()`, `operator=` and the zero branch of `resize`. Storage is an owned sequence value.
- The `assert`s in `front()` and `back()` become the `EmptyContainer` error result. The subscript has no check in the source; the model gives it `IndexOutOfRange`.
- The `#ifdef DEBUG` visibility switches and the `<cassert>` include have no counterpart, because visibility does not change behaviour.
- Pointer identity is abstract. An iterator's `pDeque` is a `StoreRef`, and the operations that read through an iterator take the deque value as a parameter. Iterator invalidation is not simulated. The model's iterator holds a logical index, so it keeps naming the same element across growth (`LemmaDerefSurvivesGrowth`). A pointer to a deque that no longer exists cannot be expressed.
- The iterator's two-argument constructor, copy constructor and assignment (deque.h:143-162) are value construction and value copy here. They need no members of their own.
- The `const` and non-`const` overloads of `front`, `back`, `operator[]` and `*` are one function each. Writes through the returned reference are modelled by `CircularDeque.Update` (subscript) only, not separately for `front()`, `back()` or `*it`.
- The source mixes signed `int` and unsigned `size_t`. The model uses mathematical `nat` and `int`, so nothing wraps around.
- CircularDeque.WithCapacity: a negative argument gives capacity 0. The source converts it to a huge `size_t` capacity with no storage, an object that no other operation can use safely.
- CircularDeque.Resize: requires the new capacity to hold every element. For a non-zero request smaller than the count, the source sets `numCapacity` to the request but keeps `numElements`, so the count ends above the capacity; when the front is early in storage, the copy loop also writes past the new storage. A request of 0 is the source's growth call, and its written body copies nothing; with two or more elements it leaves the count above the capacity (see Findings, deque.h:394-397). The model therefore accepts a request of 0 only on an empty deque, and gives growth as `CircularDeque.Grow`. On that empty-deque path it also resets the front to 0, which the source does not.
- CircularDeque.Assign: the two sides cannot alias, because a deque here is a value; so `d = d` keeps the logical sequence, while the written body empties the deque (see Findings, deque.h:273-288, and `AsWritten.SelfAssignAsWritten`). The left-hand side is not a parameter. The source's attempt to reuse the left-hand side's capacity (`resize(rhs.numElements)`) is replaced by fresh storage of the right-hand side's capacity.
- AsWritten.ResizeAsWritten: models only inputs on which the written loop stays inside storage. On a full deque the loop also reads one slot past the end.
- AsWritten.AssignAsWritten: models only the paths of the written `operator=` that do not call `resize`, with the two sides distinct; self-assignment is `AsWritten.SelfAssignAsWritten`.
- The postfix `++` and `--` bodies initialise an iterator from `this`, a pointer, which is not valid C++. The model follows their evident intent: copy, step, return the copy.
- Concurrency does not apply: the container is single-threaded.

## Findings

| source | as written | input that shows it | evidently intended | confidence | as-written member | corrected member |
|---|---|---|---|---|---|---|
| deque.h:117 | `id + iaFront % numCapacity`: the modulus binds to `iaFront` only | capacity 5, front 3, index 2 gives slot 5, past the end of storage | `(id + iaFront) % numCapacity`, as the pseudocode at deque.h:110 says | not executed | `AsWritten.LemmaIaFromIDAsWrittenLeavesStorage` | `CircularDeque.IaFromID` |
| deque.h:96 | `empty()` returns `numElements > 0` | a default-constructed deque reports not empty | `numElements == 0` | not executed | `AsWritten.LemmaEmptyAsWrittenIsInverted` | `CircularDeque.IsEmpty` |
| deque.h:323-335 | `back()` returns `*(new T)` and never reads the deque | the deques holding only 1 and only 2 get the same answer, a freshly allocated value unrelated to the deque (uninitialised for scalars) | the element at `iaFromID(numElements - 1)`, as the commented-out lines say | not executed | `AsWritten.LemmaBackAsWrittenFabricates` | `CircularDeque.Back` |
| deque.h:341-352 | `operator[]` returns `data[index]` without translation | storage `[2, 1]` with front 1 (the deque 1, 2) gives 2 at index 0 | `data[iaFromID(index)]` | not executed | `AsWritten.LemmaSubscriptAsWrittenIgnoresFront` | `CircularDeque.At` |
| deque.h:403 | the `resize` loop copies raw slots `iaFront ..= numElements` | front 3 of 4 holding 1, 2: nothing is copied, and the grown deque reads unwritten slots | copy `data[iaFromID(i)]` for `i` in `[0, numElements)` to slot `i` | not executed | `AsWritten.LemmaResizeAsWrittenLosesWrappedElements` | `CircularDeque.Resize` |
| deque.h:260-261 | the copy constructor copies raw slots `0 .. numElements` but keeps `iaFront` | storage `[4, 9]` and `[4, 8]` with front 1 (the deques 9 and 8): both copies hold the same unwritten slot | copy the live slots through the translation | not executed | `AsWritten.LemmaCopyAsWrittenLosesElements` | `CircularDeque.CopyOf` |
| deque.h:287-288 | `operator=` copies raw slots `0 .. numElements` and keeps the left-hand side's front | assigning the deque 9 (storage `[4, 9]`, front 1) gives the deque 4 | copy element `i` through the translation into slot `i`, with front 0 | not executed | `AsWritten.LemmaAssignAsWrittenReordersElements` | `CircularDeque.Assign` |
| deque.h:64-65 | `begin()` and `end()` both return the default iterator | any non-empty deque: `end() - begin()` is 0 | positions 0 and `numElements` of this deque | not executed | `AsWritten.LemmaBeginEndAsWrittenCoincide` | `DequeIterator.LemmaEndMinusBeginIsSize` |
| deque.h:167 | iterator `==` compares only `pDeque` | `begin() == end()` on a one-element deque | compare `pDeque` and `id` | not executed | `AsWritten.LemmaIteratorEqualAsWrittenIgnoresPosition` | `DequeIterator.Equal` |
| deque.h:168 | iterator `!=` compares only `pDeque` | `begin() != end()` is false on a one-element deque, so a traversal loop never runs | negation of `==` over `pDeque` and `id` | not executed | `AsWritten.LemmaIteratorNotEqualAsWrittenIgnoresPosition` | `DequeIterator.NotEqual` |
| deque.h:394-397 | `resize(0)`, the growth call the comment at deque.h:386-390 describes, allocates one slot and returns without copying | the full deque 5, 6: 2 elements in 1 slot, the old contents gone | grow to the larger capacity and copy the live elements in logical order | not executed | `AsWritten.LemmaResizeZeroAsWrittenDropsElements` | `CircularDeque.Grow` |
| deque.h:176 | iterator `*` returns `*(pDeque->data)`, always slot 0 | the deque 1, 2 at position 1 gives 1 | `pDeque->data[pDeque->iaFromID(id)]` | not executed | `AsWritten.LemmaDerefAsWrittenIgnoresPosition` | `DequeIterator.Deref` |
| deque.h:273-288 | `operator=` zeroes `numElements` before reading `rhs.numElements`; on `d = d` that is the same field | assigning the deque 7 to itself leaves an empty deque | read the right-hand side before changing the left, or return at once when `&rhs == this` | not executed | `AsWritten.LemmaSelfAssignAsWrittenEmpties` | `CircularDeque.Assign` |
| deque.h:280-285 | `operator=` allocates `rhs.numCapacity` slots but keeps the left-hand side's `numCapacity` unless it is below `rhs.numElements` | a two-element deque assigned to a four-slot deque: 2 slots of storage, capacity 4 | the capacity recorded is the size of the storage allocated | not executed | `AsWritten.LemmaAssignAsWrittenMismatchesCapacity` | `CircularDeque.Assign` |
