/** `deque<T>::iterator`: a logical position together with the deque it
    walks. Positions follow pointer arithmetic: nothing clamps them, so a
    position may leave `[0, size)` (`end()` is one past the back), and only
    dereferencing asks for it to be inside. The pointer to the deque is an
    abstract store identity; the deque value it points to is passed to the
    operations that read through it. */
module DequeIterator {
  import opened DequeResult
  import opened CircularDeque

  /** Identity of the deque an iterator points to; `Null` for the default
      iterator. */
  datatype StoreRef = Null | Ref(addr: nat)

  /** The two member variables: the logical index and the deque pointer. */
  datatype Iterator = Iterator(pDeque: StoreRef, id: int)

  /** `iterator()`: position 0 of no deque. */
  function DefaultIterator(): (it: Iterator)
    ensures it.pDeque == Null && it.id == 0
  {
    Iterator(Null, 0)
  }

  /** `begin()` of the deque at `p`: the front, logical index 0. */
  function Begin<T>(p: StoreRef, d: Deque<T>): (it: Iterator)
    requires Valid(d)
    ensures it.pDeque == p && it.id == 0
    ensures Elements(d) != [] ==> Deref(it, d) == Ok(Elements(d)[0])
  {
    Iterator(p, 0)
  }

  /** `end()` of the deque at `p`: one past the back, which cannot be
      dereferenced. */
  function End<T>(p: StoreRef, d: Deque<T>): (it: Iterator)
    requires Valid(d)
    ensures it.pDeque == p && it.id == |Elements(d)|
    ensures Deref(it, d) == Err(IndexOutOfRange)
  {
    Iterator(p, d.numElements)
  }

  //
  // Compare
  //

  /** `==`: the same deque and the same position. */
  function Equal(a: Iterator, b: Iterator): (r: bool)
    ensures r <==> a == b
  {
    a.pDeque == b.pDeque && a.id == b.id
  }

  /** `!=`: the negation of `==`. */
  function NotEqual(a: Iterator, b: Iterator): (r: bool)
    ensures r <==> !Equal(a, b)
  {
    a.pDeque != b.pDeque || a.id != b.id
  }

  //
  // Access
  //

  /** `*it`: the element at the iterator's logical index, read through the
      index translation of the deque it points to; a position outside
      `[0, size)` reports IndexOutOfRange. */
  function Deref<T>(it: Iterator, d: Deque<T>): (r: Result<T>)
    requires Valid(d)
    ensures r.Ok? <==> 0 <= it.id < |Elements(d)|
    ensures r.Ok? ==> r.value == Elements(d)[it.id]
    ensures r.Err? ==> r.error == IndexOutOfRange
  {
    if 0 <= it.id < d.numElements then Ok(d.data[IaFromID(d, it.id)]) else Err(IndexOutOfRange)
  }

  /** An iterator keeps naming the same element after the deque grows: it
      holds a logical index, and growth keeps the logical sequence. */
  lemma LemmaDerefSurvivesGrowth<T>(it: Iterator, d: Deque<T>, blank: T)
    requires Valid(d)
    ensures Deref(it, Grow(d, blank)) == Deref(it, d)
  {
  }

  //
  // Arithmetic
  //

  /** `it1 - it2`: the difference of the positions. */
  function Distance(a: Iterator, b: Iterator): (n: int)
    ensures Advance(b, n).id == a.id
  {
    a.id - b.id
  }

  /** `it += offset`: move by `offset` positions, unclamped, same deque. */
  function Advance(it: Iterator, offset: int): (r: Iterator)
    ensures r.pDeque == it.pDeque
    ensures r.id - it.id == offset
  {
    Iterator(it.pDeque, it.id + offset)
  }

  /** `++it`: one position forward. */
  function Increment(it: Iterator): (r: Iterator)
    ensures r.pDeque == it.pDeque && Distance(r, it) == 1
  {
    Iterator(it.pDeque, it.id + 1)
  }

  /** `--it`: one position back. */
  function Decrement(it: Iterator): (r: Iterator)
    ensures r.pDeque == it.pDeque && Distance(r, it) == -1
  {
    Iterator(it.pDeque, it.id - 1)
  }

  /** `it++`: the iterator moves forward; the call yields the position it
      had before. */
  function PostIncrement(it: Iterator): (r: (Iterator, Iterator))
    ensures r.0 == it
    ensures Distance(r.1, r.0) == 1 && r.1.pDeque == it.pDeque
  {
    (it, Increment(it))
  }

  /** `it--`: the iterator moves back; the call yields the position it had
      before. */
  function PostDecrement(it: Iterator): (r: (Iterator, Iterator))
    ensures r.0 == it
    ensures Distance(r.1, r.0) == -1 && r.1.pDeque == it.pDeque
  {
    (it, Decrement(it))
  }

  /** Moving by the distance between two iterators of one deque reaches the
      other: `it2 + (it1 - it2) == it1`. */
  lemma LemmaAdvanceByDistance(a: Iterator, b: Iterator)
    requires a.pDeque == b.pDeque
    ensures Advance(b, Distance(a, b)) == a
  {
  }

  /** Stepping forward and back, in either order, returns to the start. */
  lemma LemmaIncrementDecrementInverse(it: Iterator)
    ensures Decrement(Increment(it)) == it
    ensures Increment(Decrement(it)) == it
  {
  }

  /** The distance from `begin()` to `end()` is the size. */
  lemma LemmaEndMinusBeginIsSize<T>(p: StoreRef, d: Deque<T>)
    requires Valid(d)
    ensures Distance(End(p, d), Begin(p, d)) == Size(d)
    ensures Equal(Begin(p, d), End(p, d)) <==> IsEmpty(d)
  {
  }

  //
  // Traversal
  //

  /** The elements a client loop `for (; it != end; ++it) *it` reads: `k`
      dereferences, stepping forward after each. */
  function Walk<T>(it: Iterator, d: Deque<T>, k: nat): (s: seq<T>)
    requires Valid(d)
    requires 0 <= it.id && it.id + k <= d.numElements
    ensures |s| == k
    decreases k
  {
    if k == 0 then [] else [Deref(it, d).value] + Walk(Increment(it), d, k - 1)
  }

  /** Walking `k` steps from position `i` reads logical elements `i .. i+k`
      in order, wherever they sit in storage. */
  lemma {:induction false} LemmaWalkReadsElements<T>(it: Iterator, d: Deque<T>, k: nat)
    requires Valid(d)
    requires 0 <= it.id && it.id + k <= d.numElements
    ensures Walk(it, d, k) == Elements(d)[it.id .. it.id + k]
    decreases k
  {
    if k > 0 {
      LemmaWalkReadsElements(Increment(it), d, k - 1);
    }
  }

  /** Iterating from `begin()` to `end()` reads exactly the logical
      sequence, whatever the wrap state of the storage. */
  lemma LemmaBeginToEndReadsElements<T>(p: StoreRef, d: Deque<T>)
    requires Valid(d)
    ensures Walk(Begin(p, d), d, Distance(End(p, d), Begin(p, d))) == Elements(d)
  {
    LemmaWalkReadsElements(Begin(p, d), d, d.numElements);
  }
}
