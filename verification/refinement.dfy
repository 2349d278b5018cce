/** The deque against a plain sequence. `RunSeq` is the reference meaning
    of a series of insertions and removals: what an ordinary ordered list
    would hold. `Run` performs the same series on the circular buffer. The
    lemmas here say the two never disagree, whatever the wrap state and
    however often the buffer grows. */
module DequeRefinement {
  import opened DequeResult
  import opened CircularDeque

  /** One mutating call on a deque. */
  datatype Op<T> = PushBackOp(t: T) | PushFrontOp(t: T) | PopBackOp | PopFrontOp | ClearOp

  /** The reference meaning of one call on a plain sequence; removing from
      an empty sequence fails. */
  function StepSeq<T>(s: seq<T>, op: Op<T>): Result<seq<T>>
  {
    match op
    case PushBackOp(t) => Ok(s + [t])
    case PushFrontOp(t) => Ok([t] + s)
    case PopBackOp => if s == [] then Err(EmptyContainer) else Ok(s[..|s| - 1])
    case PopFrontOp => if s == [] then Err(EmptyContainer) else Ok(s[1..])
    case ClearOp => Ok([])
  }

  /** The reference meaning of a series of calls: stop at the first failure. */
  function RunSeq<T>(s: seq<T>, ops: seq<Op<T>>): Result<seq<T>>
    decreases |ops|
  {
    if ops == [] then Ok(s)
    else
      match StepSeq(s, ops[0])
      case Err(e) => Err(e)
      case Ok(s') => RunSeq(s', ops[1..])
  }

  /** One call on the circular buffer. Each call keeps the class invariant
      and changes the elements exactly as the reference does, failing on the
      same inputs with the same error. */
  function Step<T>(d: Deque<T>, op: Op<T>): (r: Result<Deque<T>>)
    requires Valid(d)
    ensures r.Ok? <==> StepSeq(Elements(d), op).Ok?
    ensures r.Ok? ==> Valid(r.value) && Ok(Elements(r.value)) == StepSeq(Elements(d), op)
    ensures r.Err? ==> r.error == StepSeq(Elements(d), op).error
  {
    match op
    case PushBackOp(t) => Ok(PushBack(d, t))
    case PushFrontOp(t) => Ok(PushFront(d, t))
    case PopBackOp => PopBack(d)
    case PopFrontOp => PopFront(d)
    case ClearOp => Ok(Clear(d))
  }

  /** A series of calls on the circular buffer, stopping at the first
      failure. Its result agrees with the reference series at every length:
      the same elements in the same order, or the same error. */
  function Run<T>(d: Deque<T>, ops: seq<Op<T>>): (r: Result<Deque<T>>)
    requires Valid(d)
    ensures r.Ok? <==> RunSeq(Elements(d), ops).Ok?
    ensures r.Ok? ==> Valid(r.value) && Ok(Elements(r.value)) == RunSeq(Elements(d), ops)
    ensures r.Err? ==> r.error == RunSeq(Elements(d), ops).error
    decreases |ops|
  {
    if ops == [] then Ok(d)
    else
      match Step(d, ops[0])
      case Err(e) => Err(e)
      case Ok(d') => Run(d', ops[1..])
  }

  /** Insertions minus removals over a series of calls. */
  function NetCount<T>(ops: seq<Op<T>>): int
    decreases |ops|
  {
    if ops == [] then 0
    else
      (match ops[0]
       case PushBackOp(_) => 1
       case PushFrontOp(_) => 1
       case PopBackOp => -1
       case PopFrontOp => -1
       case ClearOp => 0)
      + NetCount(ops[1..])
  }

  /** Without `clear`, a series of calls that succeeds leaves the size at the
      starting size plus the insertions minus the removals. */
  lemma {:induction false} LemmaSizeIsNetCount<T>(d: Deque<T>, ops: seq<Op<T>>)
    requires Valid(d)
    requires forall k :: 0 <= k < |ops| ==> !ops[k].ClearOp?
    requires Run(d, ops).Ok?
    ensures Size(Run(d, ops).value) == Size(d) + NetCount(ops)
    decreases |ops|
  {
    if ops != [] {
      var d' := Step(d, ops[0]).value;
      assert forall k :: 0 <= k < |ops[1..]| ==> !ops[1..][k].ClearOp? by {
        forall k | 0 <= k < |ops[1..]| ensures !ops[1..][k].ClearOp? {
          assert ops[1..][k] == ops[k + 1];
        }
      }
      LemmaSizeIsNetCount(d', ops[1..]);
    }
  }

  /** A removal series that fails did so because some removal found the
      deque empty: the size never goes below zero. */
  lemma {:induction false} LemmaRunFailsOnlyWhenEmpty<T>(d: Deque<T>, ops: seq<Op<T>>)
    requires Valid(d)
    requires Run(d, ops).Err?
    ensures Run(d, ops).error == EmptyContainer
    ensures exists k :: 0 <= k < |ops| && (ops[k].PopBackOp? || ops[k].PopFrontOp?)
    decreases |ops|
  {
    assert ops != [];
    match Step(d, ops[0])
    case Err(e) =>
      assert ops[0].PopBackOp? || ops[0].PopFrontOp?;
    case Ok(d') =>
      LemmaRunFailsOnlyWhenEmpty(d', ops[1..]);
      var k :| 0 <= k < |ops[1..]| && (ops[1..][k].PopBackOp? || ops[1..][k].PopFrontOp?);
      assert ops[k + 1] == ops[1..][k];
  }

  /** Filling a capacity-4 deque with A, B, C, D, removing the front and
      appending E wraps the window: E lands in slot 0, the front is slot 1,
      no growth happens, and the deque reads B, C, D, E. */
  lemma LemmaWrapAroundScenario<T>(blank: T, a: T, b: T, c: T, d: T, e: T)
    ensures var d4 := PushBack(PushBack(PushBack(PushBack(WithCapacity(4, blank), a), b), c), d);
            && PopFront(d4).Ok?
            && var d6 := PushBack(PopFront(d4).value, e);
            && Front(d6) == Ok(b) && Back(d6) == Ok(e) && Size(d6) == 4
            && Elements(d6) == [b, c, d, e]
            && d6.numCapacity == 4 && d6.iaFront == 1 && d6.data[0] == e
  {
  }

  /** Pushing one more element than the capacity forces growth and loses,
      duplicates or reorders nothing. */
  lemma LemmaGrowthKeepsOrder<T>(d: Deque<T>, t: T)
    requires Valid(d) && d.numElements == d.numCapacity
    ensures PushBack(d, t).numCapacity > d.numCapacity
    ensures Elements(PushBack(d, t))[..|Elements(d)|] == Elements(d)
    ensures Elements(PushBack(d, t))[|Elements(d)|] == t
  {
  }
}
