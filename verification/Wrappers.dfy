/** Optional values, Python's raise as a value, and regrouping of sequences. */
module Wrappers {
  datatype Option<+T> = None | Some(value: T)

  /** A result is the returned value, or the exception that was raised. */
  datatype Result<+T> = Ok(value: T) | Raise {
    predicate IsFailure() { Raise? }
    function PropagateFailure<U>(): Result<U> requires Raise? { Raise }
    function Extract(): T requires Ok? { value }
  }

  lemma Associates<T>(a: seq<T>, b: seq<T>, c: seq<T>)
    ensures a + b + c == a + (b + c)
  {
  }
}
