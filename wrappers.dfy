/** Optional values and the two exceptions the random helpers can raise. */
module Wrappers {

  datatype Option<+T> = None | Some(value: T)

  /** `random.choice` on an empty sequence raises IndexError; `random.randint(1, 0)`
      raises ValueError (an empty range). */
  datatype Error = EmptySequence | EmptyRange

  datatype Result<+T> = Ok(value: T) | Err(error: Error)
}
