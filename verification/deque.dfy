/** The circular-buffer deque `custom::deque<T>`.

    The state is a block of `numCapacity` storage slots, the number of live
    elements, and `iaFront`, the slot that holds the logical front. Logical
    index `id` lives in slot `(id + iaFront) mod numCapacity`, so the window
    of live slots may run past the end of storage and continue at slot 0:

        slot      0   1   2   3   4
                +---+---+---+---+---+
                | D |   | A | B | C |     iaFront = 2, numElements = 4
                +---+---+---+---+---+     numCapacity = 5

    Every operation is a pure function (or, for the two copying loops, a
    method) from one deque value to another, and its contract says how the
    abstract sequence `Elements(d)` changes. */
module CircularDeque {
  import opened DequeResult

  /** The four member variables of the class. Slots outside the live window
      hold whatever was last stored there and are never read. */
  datatype Deque<T> = Deque(data: seq<T>, numCapacity: nat, numElements: nat, iaFront: nat)

  /** The class invariant: storage has exactly `numCapacity` slots, no more
      elements than slots, and the front is a slot of storage (0 when there
      is no storage at all). */
  predicate Valid<T>(d: Deque<T>)
  {
    && |d.data| == d.numCapacity
    && d.numElements <= d.numCapacity
    && (if d.numCapacity == 0 then d.iaFront == 0 else d.iaFront < d.numCapacity)
  }

  /** Euclidean remainder of a sum that is at most one capacity away from
      the range `[0, c)`: it is the sum itself, or the sum moved back into
      the range by exactly one `c`. */
  lemma LemmaModWindow(s: int, c: int)
    requires c > 0 && -c <= s < 2 * c
    ensures 0 <= s < c ==> s % c == s
    ensures c <= s ==> s % c == s - c
    ensures s < 0 ==> s % c == s + c
  {
  }

  /** Logical index to storage slot: `(id + iaFront) mod numCapacity`.
      The source only asks for `0 <= id < numElements`; the model also
      accepts the neighbouring indices `-numCapacity .. numCapacity` that
      push_front (index -1) and pop_front (index 1 of a one-slot deque)
      need. The contract says which slot that is without the modulus: the
      slot just past the front when that is still in storage, otherwise the
      slot reached after wrapping once. */
  function IaFromID<T>(d: Deque<T>, id: int): (ia: nat)
    requires Valid(d) && d.numCapacity > 0
    requires -(d.numCapacity as int) <= id <= d.numCapacity
    ensures ia < d.numCapacity
    ensures 0 <= d.iaFront + id < d.numCapacity ==> ia == d.iaFront + id
    ensures d.numCapacity <= d.iaFront + id ==> ia == d.iaFront + id - d.numCapacity
    ensures d.iaFront + id < 0 ==> ia == d.iaFront + id + d.numCapacity
  {
    LemmaModWindow(d.iaFront + id, d.numCapacity);
    (d.iaFront + id) % d.numCapacity
  }

  /** Distinct live indices occupy distinct slots: the window never
      overlaps itself, so writing one element cannot overwrite another. */
  lemma LemmaIaFromIDInjective<T>(d: Deque<T>, i: int, j: int)
    requires Valid(d)
    requires 0 <= i < d.numCapacity && 0 <= j < d.numCapacity
    ensures IaFromID(d, i) == IaFromID(d, j) <==> i == j
  {
  }

  /** The abstraction function: the elements in logical order, front first. */
  function Elements<T>(d: Deque<T>): (s: seq<T>)
    requires Valid(d)
    ensures |s| == d.numElements
  {
    seq(d.numElements, i requires 0 <= i < d.numElements => d.data[IaFromID(d, i)])
  }

  //
  // Construct
  //

  /** `deque()`: no storage, no elements, front at 0. */
  function Default<T>(): (d: Deque<T>)
    ensures Valid(d) && Elements(d) == []
    ensures d.numCapacity == 0 && d.iaFront == 0 && d.data == []
  {
    Deque([], 0, 0, 0)
  }

  /** `deque(newCapacity)`: storage of `newCapacity` freshly allocated
      slots, each holding `blank`, when `newCapacity > 0`, and no storage
      otherwise; no elements and front at 0 either way. */
  function WithCapacity<T>(newCapacity: int, blank: T): (d: Deque<T>)
    ensures Valid(d) && Elements(d) == [] && d.iaFront == 0
    ensures newCapacity > 0 ==> d.numCapacity == newCapacity
    ensures newCapacity <= 0 ==> d.numCapacity == 0 && d.data == []
    ensures forall k :: 0 <= k < |d.data| ==> d.data[k] == blank
  {
    if newCapacity > 0 then Deque(seq(newCapacity, _ => blank), newCapacity, 0, 0)
    else Deque([], 0, 0, 0)
  }

  /** `deque(const deque & rhs)`: a deque with the same capacity, the same
      front slot and the same elements. Only the live slots are copied, each
      through the index translation, so a window that wraps is copied
      whole; the other slots hold `blank`. */
  method CopyOf<T>(rhs: Deque<T>, blank: T) returns (d: Deque<T>)
    requires Valid(rhs)
    ensures Valid(d) && Elements(d) == Elements(rhs)
    ensures d.numCapacity == rhs.numCapacity && d.numElements == rhs.numElements
    ensures d.iaFront == rhs.iaFront
  {
    var data := seq(rhs.numCapacity, _ => blank);
    var i := 0;
    while i < rhs.numElements
      invariant i <= rhs.numElements
      invariant |data| == rhs.numCapacity
      invariant forall j :: 0 <= j < i ==> data[IaFromID(rhs, j)] == rhs.data[IaFromID(rhs, j)]
    {
      var ia := IaFromID(rhs, i);
      data := data[ia := rhs.data[ia]];
      i := i + 1;
    }
    d := Deque(data, rhs.numCapacity, rhs.numElements, rhs.iaFront);
    assert forall j :: 0 <= j < d.numElements ==> IaFromID(d, j) == IaFromID(rhs, j);
  }

  //
  // Assign
  //

  /** `operator = (const deque & rhs)`: fresh storage of the right-hand
      side's capacity holding its elements in logical order from slot 0, so
      the copy's front is normalised to 0 whatever the original's wrap. */
  method Assign<T>(rhs: Deque<T>, blank: T) returns (d: Deque<T>)
    requires Valid(rhs)
    ensures Valid(d) && Elements(d) == Elements(rhs)
    ensures d.numCapacity == rhs.numCapacity && d.numElements == rhs.numElements
    ensures d.iaFront == 0
    ensures forall k :: 0 <= k < d.numElements ==> d.data[k] == Elements(rhs)[k]
  {
    var data := seq(rhs.numCapacity, _ => blank);
    var i := 0;
    while i < rhs.numElements
      invariant i <= rhs.numElements
      invariant |data| == rhs.numCapacity
      invariant forall j :: 0 <= j < i ==> data[j] == rhs.data[IaFromID(rhs, j)]
    {
      data := data[i := rhs.data[IaFromID(rhs, i)]];
      i := i + 1;
    }
    d := Deque(data, rhs.numCapacity, rhs.numElements, 0);
  }

  //
  // Access
  //

  /** `front()`: the element in slot `iaFront`, which is logical index 0;
      an empty deque reports EmptyContainer. */
  function Front<T>(d: Deque<T>): (r: Result<T>)
    requires Valid(d)
    ensures r.Ok? <==> Elements(d) != []
    ensures r.Ok? ==> r.value == Elements(d)[0] && r.value == d.data[d.iaFront]
    ensures r.Err? ==> r.error == EmptyContainer
  {
    if d.numElements == 0 then Err(EmptyContainer) else Ok(d.data[d.iaFront])
  }

  /** `back()`: the element at logical index `numElements - 1`, found
      through the index translation; an empty deque reports EmptyContainer. */
  function Back<T>(d: Deque<T>): (r: Result<T>)
    requires Valid(d)
    ensures r.Ok? <==> Elements(d) != []
    ensures r.Ok? ==> r.value == Elements(d)[|Elements(d)| - 1]
    ensures r.Err? ==> r.error == EmptyContainer
  {
    if d.numElements == 0 then Err(EmptyContainer)
    else Ok(d.data[IaFromID(d, d.numElements - 1)])
  }

  /** `operator[](index)`, read form: the element at logical index `index`,
      found through the index translation; an index at or past the end
      reports IndexOutOfRange. */
  function At<T>(d: Deque<T>, index: nat): (r: Result<T>)
    requires Valid(d)
    ensures r.Ok? <==> index < |Elements(d)|
    ensures r.Ok? ==> r.value == Elements(d)[index]
    ensures r.Err? ==> r.error == IndexOutOfRange
  {
    if index < d.numElements then Ok(d.data[IaFromID(d, index)]) else Err(IndexOutOfRange)
  }

  /** `operator[](index) = v`, the write through the returned reference:
      only the element at `index` changes, and the layout stays put. */
  function Update<T>(d: Deque<T>, index: nat, v: T): (r: Result<Deque<T>>)
    requires Valid(d)
    ensures r.Ok? <==> index < |Elements(d)|
    ensures r.Ok? ==> Valid(r.value) && Elements(r.value) == Elements(d)[index := v]
    ensures r.Ok? ==> r.value.numCapacity == d.numCapacity && r.value.iaFront == d.iaFront
    ensures r.Err? ==> r.error == IndexOutOfRange
  {
    if index < d.numElements then
      var ia := IaFromID(d, index);
      var e := Deque(d.data[ia := v], d.numCapacity, d.numElements, d.iaFront);
      assert forall j :: 0 <= j < e.numElements ==> IaFromID(e, j) == IaFromID(d, j);
      Ok(e)
    else Err(IndexOutOfRange)
  }

  //
  // Status
  //

  /** `size()`: the number of elements. */
  function Size<T>(d: Deque<T>): (n: nat)
    requires Valid(d)
    ensures n == |Elements(d)|
  {
    d.numElements
  }

  /** `empty()`: true exactly when the deque holds no elements. */
  function IsEmpty<T>(d: Deque<T>): (b: bool)
    requires Valid(d)
    ensures b <==> Elements(d) == []
  {
    d.numElements == 0
  }

  //
  // Grow
  //

  /** The capacity to grow to when a push finds the deque full: an empty
      allocation becomes one slot, anything else doubles. */
  function NewCapacity(numCapacity: nat): (c: nat)
    ensures c > numCapacity
    ensures numCapacity > 0 ==> c == 2 * numCapacity
  {
    if numCapacity == 0 then 1 else 2 * numCapacity
  }

  /** `resize(newCapacity)`: fresh storage of `newCapacity` slots (one slot
      when asked for 0) with the live elements copied in logical order to
      slots `0 .. numElements`, and the front moved to slot 0. The logical
      sequence is unchanged. The new storage must have room for every
      element. */
  function Resize<T>(d: Deque<T>, newCapacity: nat, blank: T): (r: Deque<T>)
    requires Valid(d) && d.numElements <= newCapacity
    ensures Valid(r) && Elements(r) == Elements(d)
    ensures r.numCapacity == (if newCapacity == 0 then 1 else newCapacity)
    ensures r.iaFront == 0 && r.numElements == d.numElements
    ensures forall k :: 0 <= k < r.numElements ==> r.data[k] == Elements(d)[k]
  {
    var c := if newCapacity == 0 then 1 else newCapacity;
    Deque(seq(c, k requires 0 <= k < c => if k < d.numElements then d.data[IaFromID(d, k)] else blank),
          c, d.numElements, 0)
  }

  /** Growth before an insertion into a full deque. */
  function Grow<T>(d: Deque<T>, blank: T): (r: Deque<T>)
    requires Valid(d)
    ensures Valid(r) && Elements(r) == Elements(d)
    ensures r.numCapacity > d.numCapacity && r.numElements < r.numCapacity
    ensures r.iaFront == 0
  {
    Resize(d, NewCapacity(d.numCapacity), blank)
  }

  /** The deque a push works on: grown if it is full, as it is otherwise.
      The value being pushed fills the fresh dead slots; they are never
      read before being written. */
  function GrowIfFull<T>(d: Deque<T>, t: T): (r: Deque<T>)
    requires Valid(d)
    ensures Valid(r) && Elements(r) == Elements(d) && r.numElements < r.numCapacity
    ensures r.numCapacity == (if d.numElements == d.numCapacity then NewCapacity(d.numCapacity) else d.numCapacity)
  {
    if d.numElements == d.numCapacity then Grow(d, t) else d
  }

  //
  // Insert
  //

  /** `push_back(t)`: grow when full, then store `t` in the slot just past
      the back and count it. */
  function PushBack<T>(d: Deque<T>, t: T): (r: Deque<T>)
    requires Valid(d)
    ensures Valid(r) && Elements(r) == Elements(d) + [t]
    ensures r.numCapacity == (if d.numElements == d.numCapacity then NewCapacity(d.numCapacity) else d.numCapacity)
    ensures d.numElements < d.numCapacity ==> r.iaFront == d.iaFront
  {
    var g := GrowIfFull(d, t);
    var ia := IaFromID(g, g.numElements);
    var e := Deque(g.data[ia := t], g.numCapacity, g.numElements + 1, g.iaFront);
    assert forall j :: 0 <= j < e.numElements ==> IaFromID(e, j) == IaFromID(g, j);
    e
  }

  /** Storing `t` in the slot before the front of a deque that has room:
      the front steps back one slot, wrapping from 0 to the last slot. */
  function PutFront<T>(g: Deque<T>, t: T): (r: Deque<T>)
    requires Valid(g) && g.numElements < g.numCapacity
    ensures Valid(r) && Elements(r) == [t] + Elements(g)
    ensures r.numCapacity == g.numCapacity
    ensures r.iaFront == (if g.iaFront == 0 then g.numCapacity - 1 else g.iaFront - 1)
  {
    var ia := IaFromID(g, -1);
    var e := Deque(g.data[ia := t], g.numCapacity, g.numElements + 1, ia);
    assert forall j :: 1 <= j < e.numElements ==> IaFromID(e, j) == IaFromID(g, j - 1);
    e
  }

  /** `push_front(t)`: grow when full, then step the front back one slot
      (wrapping from 0 to `numCapacity - 1`), store `t` there and count it. */
  function PushFront<T>(d: Deque<T>, t: T): (r: Deque<T>)
    requires Valid(d)
    ensures Valid(r) && Elements(r) == [t] + Elements(d)
    ensures r.numCapacity == (if d.numElements == d.numCapacity then NewCapacity(d.numCapacity) else d.numCapacity)
    ensures d.numElements < d.numCapacity ==> r.iaFront == (if d.iaFront == 0 then d.numCapacity - 1 else d.iaFront - 1)
  {
    PutFront(GrowIfFull(d, t), t)
  }

  //
  // Remove
  //

  /** `pop_back()`: forget the back element; an empty deque reports
      EmptyContainer. */
  function PopBack<T>(d: Deque<T>): (r: Result<Deque<T>>)
    requires Valid(d)
    ensures r.Ok? <==> Elements(d) != []
    ensures r.Ok? ==> Valid(r.value) && Elements(r.value) == Elements(d)[..|Elements(d)| - 1]
    ensures r.Ok? ==> r.value.numCapacity == d.numCapacity && r.value.iaFront == d.iaFront
    ensures r.Err? ==> r.error == EmptyContainer
  {
    if d.numElements == 0 then Err(EmptyContainer)
    else
      var e := Deque(d.data, d.numCapacity, d.numElements - 1, d.iaFront);
      assert forall j :: 0 <= j < e.numElements ==> IaFromID(e, j) == IaFromID(d, j);
      Ok(e)
  }

  /** `pop_front()`: forget the front element by advancing the front one
      slot (wrapping from the last slot to 0); an empty deque reports
      EmptyContainer. */
  function PopFront<T>(d: Deque<T>): (r: Result<Deque<T>>)
    requires Valid(d)
    ensures r.Ok? <==> Elements(d) != []
    ensures r.Ok? ==> Valid(r.value) && Elements(r.value) == Elements(d)[1..]
    ensures r.Ok? ==> r.value.numCapacity == d.numCapacity
    ensures r.Ok? ==> r.value.iaFront == (if d.iaFront + 1 == d.numCapacity then 0 else d.iaFront + 1)
    ensures r.Err? ==> r.error == EmptyContainer
  {
    if d.numElements == 0 then Err(EmptyContainer)
    else
      var e := Deque(d.data, d.numCapacity, d.numElements - 1, IaFromID(d, 1));
      assert forall j :: 0 <= j < e.numElements ==> IaFromID(e, j) == IaFromID(d, j + 1);
      Ok(e)
  }

  /** `clear()`: no elements and the front back at slot 0; the storage and
      its capacity are kept. */
  function Clear<T>(d: Deque<T>): (r: Deque<T>)
    requires Valid(d)
    ensures Valid(r) && Elements(r) == []
    ensures r.numCapacity == d.numCapacity && r.iaFront == 0
  {
    Deque(d.data, d.numCapacity, 0, 0)
  }
}
