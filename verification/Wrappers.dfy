/** Results, optional values and bytes shared by every model in this project. */
module Wrappers {
  newtype byte = b: int | 0 <= b < 256

  const NEWLINE: byte := 10

  /** A value that the program may leave unset (its `None`). */
  datatype Option<+T> = None | Some(value: T)

  /** The outcome of an operation that either returns or raises. */
  datatype Result<+T, +E> = Ok(value: T) | Err(error: E) {
    predicate IsFailure() {
      Err?
    }

    function PropagateFailure<U>(): Result<U, E>
      requires Err?
    {
      Err(error)
    }

    function Extract(): T
      requires Ok?
    {
      value
    }
  }

  /** `items[:limit]`, where a negative limit counts from the end. */
  function Slice<T>(items: seq<T>, limit: int): seq<T> {
    if limit > |items| then items
    else if limit >= 0 then items[..limit]
    else if -limit > |items| then []
    else items[..|items| + limit]
  }

  /** What is cut off is the end: the first `limit` items are kept, or all but the last `-limit`. */
  lemma SliceIsPrefix<T>(items: seq<T>, limit: int)
    ensures Slice(items, limit) <= items
    ensures limit >= 0 ==> |Slice(items, limit)| == if limit < |items| then limit else |items|
    ensures limit < 0 ==> |Slice(items, limit)| == if -limit < |items| then |items| + limit else 0
  {
  }
}
