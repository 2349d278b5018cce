/** Bodies of `deque.h` that contradict their own comments or the contract
    of the class, modelled as they are written, each next to an input on
    which it gives a different answer from the corresponding member of
    `CircularDeque` or `DequeIterator`. Nothing else in the model uses these. */
module AsWritten {
  import opened DequeResult
  import opened CircularDeque
  import opened DequeIterator

  /** `iaFromID` as written: `id + iaFront % numCapacity`, where the
      modulus binds to `iaFront` alone and the sum is never reduced. */
  function IaFromIDAsWritten<T>(d: Deque<T>, id: int): int
    requires d.numCapacity > 0
  {
    id + d.iaFront % d.numCapacity
  }

  /** With the front in slot 3 of 5, logical index 2 wraps to slot 0, but
      the written expression yields 5, one past the last slot. */
  lemma LemmaIaFromIDAsWrittenLeavesStorage()
    ensures var d := Deque([1, 2, 3, 4, 5], 5, 3, 3);
            && Valid(d)
            && IaFromIDAsWritten(d, 2) == 5 && IaFromIDAsWritten(d, 2) >= d.numCapacity
            && IaFromID(d, 2) == 0
  {
  }

  /** `empty()` as written: `numElements > 0`. */
  function EmptyAsWritten<T>(d: Deque<T>): bool
  {
    d.numElements > 0
  }

  /** The written `empty()` is the exact negation of the intended one on
      every deque: it says "empty" precisely when there are elements. */
  lemma LemmaEmptyAsWrittenIsInverted<T>(d: Deque<T>)
    requires Valid(d)
    ensures EmptyAsWritten(d) <==> !IsEmpty(d)
    ensures !EmptyAsWritten(Default<T>())
  {
  }

  /** `back()` as written: it returns a freshly allocated value (`made`,
      uninitialised for scalars) and never looks at the deque. */
  function BackAsWritten<T>(d: Deque<T>, made: T): T
  {
    made
  }

  /** Whatever the fresh allocation holds, the written `back()` gives the
      same answer on the deque holding only 1 and on the deque holding only
      2, so it is wrong on at least one of them. */
  lemma LemmaBackAsWrittenFabricates(made: int)
    ensures var d1 := Deque([1], 1, 1, 0);
            var d2 := Deque([2], 1, 1, 0);
            && Valid(d1) && Valid(d2)
            && BackAsWritten(d1, made) == BackAsWritten(d2, made)
            && Back(d1) == Ok(1) && Back(d2) == Ok(2)
            && (Ok(BackAsWritten(d1, made)) != Back(d1) || Ok(BackAsWritten(d2, made)) != Back(d2))
  {
  }

  /** `operator[]` as written: the raw slot `index`, with no translation. */
  function SubscriptAsWritten<T>(d: Deque<T>, index: nat): T
    requires index < |d.data|
  {
    d.data[index]
  }

  /** Storage `[2, 1]` with the front in slot 1 holds the deque 1, 2; the
      written subscript reads 2 at index 0. */
  lemma LemmaSubscriptAsWrittenIgnoresFront()
    ensures var d := Deque([2, 1], 2, 2, 1);
            && Valid(d) && Elements(d) == [1, 2]
            && SubscriptAsWritten(d, 0) == 2
            && At(d, 0) == Ok(1)
  {
  }

  /** The slots the written `resize` loop copies: raw slot indices running
      from the front slot up to and including slot `numElements`, and
      nothing when the front lies past `numElements`. The loop reads slot
      `numElements` even when that is past storage; this model stops short
      of that case. */
  function ResizeLoopAsWritten<T>(d: Deque<T>): seq<T>
    requires d.numElements < |d.data|
  {
    if d.iaFront <= d.numElements then d.data[d.iaFront .. d.numElements + 1] else []
  }

  /** `resize(newCapacity)` as written, for `newCapacity > 0`: new storage
      starting with the slots the loop copies, the front set to 0 and the
      count kept. The slots after those hold `blank`, the unspecified
      contents of fresh storage. */
  function ResizeAsWritten<T>(d: Deque<T>, newCapacity: nat, blank: T): Deque<T>
    requires newCapacity > 0
    requires d.numElements < |d.data|
    requires |ResizeLoopAsWritten(d)| <= newCapacity
  {
    var copied := ResizeLoopAsWritten(d);
    Deque(copied + seq(newCapacity - |copied|, _ => blank), newCapacity, d.numElements, 0)
  }

  /** A window that wraps (front in slot 3 of 4, elements 1 then 2) is not
      copied at all: the grown deque reads two unwritten slots, which cannot
      be 1 then 2 whatever fresh storage holds. */
  lemma LemmaResizeAsWrittenLosesWrappedElements(blank: int)
    ensures var d := Deque([2, 0, 0, 1], 4, 2, 3);
            && Valid(d) && Elements(d) == [1, 2]
            && Valid(ResizeAsWritten(d, 8, blank))
            && Elements(ResizeAsWritten(d, 8, blank)) == [blank, blank]
            && Elements(ResizeAsWritten(d, 8, blank)) != Elements(d)
            && Elements(Resize(d, 8, blank)) == [1, 2]
  {
  }

  /** `resize(0)` as written, the call the growth comment describes: one
      fresh slot and no copying, with the count and the front left as they
      were. */
  function ResizeZeroAsWritten<T>(d: Deque<T>, blank: T): Deque<T>
  {
    Deque([blank], 1, d.numElements, d.iaFront)
  }

  /** Growing the full deque 5, 6 through the written `resize(0)` leaves two
      elements in one slot, breaking the class invariant, and keeps nothing
      of the old storage; the intended growth keeps the elements and raises
      the capacity. */
  lemma LemmaResizeZeroAsWrittenDropsElements(blank: int)
    ensures var d := Deque([5, 6], 2, 2, 0);
            && Valid(d) && Elements(d) == [5, 6]
            && ResizeZeroAsWritten(d, blank).numElements > ResizeZeroAsWritten(d, blank).numCapacity
            && !Valid(ResizeZeroAsWritten(d, blank))
            && ResizeZeroAsWritten(d, blank).data == [blank]
            && Elements(Grow(d, blank)) == [5, 6] && Grow(d, blank).numCapacity > 2
  {
  }

  /** The copy constructor as written: capacity, count and front copied,
      and raw slots `0 .. numElements` copied whatever the front. */
  function CopyAsWritten<T>(rhs: Deque<T>, blank: T): Deque<T>
    requires Valid(rhs)
  {
    Deque(rhs.data[..rhs.numElements] + seq(rhs.numCapacity - rhs.numElements, _ => blank),
          rhs.numCapacity, rhs.numElements, rhs.iaFront)
  }

  /** Storage `[4, 9]` and `[4, 8]`, each with the front in slot 1, hold
      the deques 9 and 8; their written copies are the same deque, holding
      the unwritten slot 1 of fresh storage, so at least one copy is wrong
      whatever fresh storage holds. */
  lemma LemmaCopyAsWrittenLosesElements(blank: int)
    ensures var rhs1 := Deque([4, 9], 2, 1, 1);
            var rhs2 := Deque([4, 8], 2, 1, 1);
            && Valid(rhs1) && Elements(rhs1) == [9]
            && Valid(rhs2) && Elements(rhs2) == [8]
            && CopyAsWritten(rhs1, blank) == CopyAsWritten(rhs2, blank)
            && Valid(CopyAsWritten(rhs1, blank))
            && Elements(CopyAsWritten(rhs1, blank)) == [blank]
            && (Elements(CopyAsWritten(rhs1, blank)) != Elements(rhs1)
                || Elements(CopyAsWritten(rhs2, blank)) != Elements(rhs2))
  {
  }

  /** `operator=` as written, on the paths that do not call `resize`: the
      right-hand side's raw slots `0 .. numElements` copied into fresh
      storage, while the capacity and the front stay those of the left-hand
      side. */
  function AssignAsWritten<T>(lhs: Deque<T>, rhs: Deque<T>, blank: T): Deque<T>
    requires Valid(rhs)
    requires rhs.numCapacity == 0 || rhs.numElements <= lhs.numCapacity
  {
    if rhs.numCapacity == 0 then Deque([], 0, 0, lhs.iaFront)
    else
      Deque(rhs.data[..rhs.numElements] + seq(rhs.numCapacity - rhs.numElements, _ => blank),
            lhs.numCapacity, rhs.numElements, lhs.iaFront)
  }

  /** Assigning the deque 9 (storage `[4, 9]`, front in slot 1) to a fresh
      two-slot deque gives the deque 4. */
  lemma LemmaAssignAsWrittenReordersElements()
    ensures var rhs := Deque([4, 9], 2, 1, 1);
            var lhs := WithCapacity(2, 0);
            && Valid(rhs) && Elements(rhs) == [9]
            && Valid(AssignAsWritten(lhs, rhs, 0))
            && Elements(AssignAsWritten(lhs, rhs, 0)) == [4]
  {
  }

  /** Assigning a two-element deque to a four-slot deque: the written body
      allocates the right-hand side's two slots but keeps the left-hand
      side's capacity of 4, so the result claims storage it does not have. */
  lemma LemmaAssignAsWrittenMismatchesCapacity()
    ensures var rhs := Deque([1, 2], 2, 2, 0);
            var lhs := WithCapacity(4, 0);
            var a := AssignAsWritten(lhs, rhs, 0);
            && Valid(rhs) && Valid(lhs)
            && |a.data| == 2 && a.numCapacity == 4
            && !Valid(a)
  {
  }

  /** `d = d` as written. Through the alias, zeroing the count first also
      zeroes the right-hand side's count, so the `resize` test fails, the
      count stays 0 and the loop copies nothing: the deque keeps its
      capacity and front over fresh storage and loses every element. */
  function SelfAssignAsWritten<T>(d: Deque<T>, blank: T): Deque<T>
  {
    if d.numCapacity == 0 then Deque([], 0, 0, d.iaFront)
    else Deque(seq(d.numCapacity, _ => blank), d.numCapacity, 0, d.iaFront)
  }

  /** Assigning the deque 7 to itself through the written body leaves it
      empty; the intended assignment keeps the logical sequence. */
  lemma LemmaSelfAssignAsWrittenEmpties(blank: int)
    ensures var d := Deque([7], 1, 1, 0);
            && Valid(d) && Elements(d) == [7]
            && Valid(SelfAssignAsWritten(d, blank))
            && Elements(SelfAssignAsWritten(d, blank)) == []
            && Elements(SelfAssignAsWritten(d, blank)) != Elements(d)
  {
  }

  /** `begin()` and `end()` as written: both the default iterator. */
  function BeginAsWritten(): Iterator
  {
    DefaultIterator()
  }

  function EndAsWritten(): Iterator
  {
    DefaultIterator()
  }

  /** On any non-empty deque the written `begin()` and `end()` are zero
      apart and point to no deque. */
  lemma LemmaBeginEndAsWrittenCoincide<T>(p: StoreRef, d: Deque<T>)
    requires Valid(d) && !IsEmpty(d)
    ensures Distance(EndAsWritten(), BeginAsWritten()) == 0
    ensures Distance(End(p, d), Begin(p, d)) == Size(d) > 0
    ensures BeginAsWritten().pDeque == Null
  {
  }

  /** Iterator `==` as written: compares only the deque pointers. */
  function IteratorEqualAsWritten(a: Iterator, b: Iterator): bool
  {
    a.pDeque == b.pDeque
  }

  /** The written `==` reports `begin() == end()` on a deque holding one
      element. */
  lemma LemmaIteratorEqualAsWrittenIgnoresPosition()
    ensures var d := PushBack(Default<int>(), 7);
            && IteratorEqualAsWritten(Begin(Ref(0), d), End(Ref(0), d))
            && !Equal(Begin(Ref(0), d), End(Ref(0), d))
  {
  }

  /** Iterator `!=` as written: also compares only the deque pointers. */
  function IteratorNotEqualAsWritten(a: Iterator, b: Iterator): bool
  {
    a.pDeque != b.pDeque
  }

  /** The written `!=` reports `begin() != end()` false on a deque holding
      one element, so a loop running while `it != end()` reads nothing. */
  lemma LemmaIteratorNotEqualAsWrittenIgnoresPosition()
    ensures var d := PushBack(Default<int>(), 7);
            && !IteratorNotEqualAsWritten(Begin(Ref(0), d), End(Ref(0), d))
            && NotEqual(Begin(Ref(0), d), End(Ref(0), d))
            && Size(d) == 1
  {
  }

  /** Iterator `*` as written: always the first storage slot. */
  function DerefAsWritten<T>(it: Iterator, d: Deque<T>): T
    requires |d.data| > 0
  {
    d.data[0]
  }

  /** On the deque 1, 2 the written `*` at position 1 reads 1. */
  lemma LemmaDerefAsWrittenIgnoresPosition()
    ensures var d := Deque([1, 2], 2, 2, 0);
            var it := Iterator(Ref(0), 1);
            && Valid(d)
            && DerefAsWritten(it, d) == 1
            && Deref(it, d) == Ok(2)
  {
  }
}
