/** Failure values for the deque operations that cannot always produce a
    result: reading or removing at an end of an empty deque, and indexing
    past the live elements. */
module DequeResult {

  /** The two ways an access to a deque can fail. */
  datatype Error = EmptyContainer | IndexOutOfRange

  /** Either the value an operation produced or the reason it could not. */
  datatype Result<T> = Ok(value: T) | Err(error: Error)
}
