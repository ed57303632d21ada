/** Option and Result types shared by every module of the model.
  * Python exceptions raised by the modelled code become `Err(kind)`. */
module Wrappers {

  datatype Option<+T> = None | Some(value: T)

  /** The Python exception classes the modelled code can raise. */
  datatype PyError = ValueError | IndexError | KeyError | TypeError | ZeroDivisionError | AttributeError | Exception

  /** The outcome of an operation that returns nothing but may raise. */
  datatype Status = Success | Failure(error: PyError)

  datatype Result<+T> = Ok(value: T) | Err(error: PyError)
  {
    predicate IsFailure() {
      Err?
    }

    function PropagateFailure<U>(): Result<U>
      requires Err?
    {
      Err(error)
    }

    function Extract(): T
      requires Ok?
    {
      value
    }
  }

  /** Python indexing `s[i]` of a list of length n: negative positions count
    * from the end, anything else out of range raises `IndexError` (`None`). */
  function PyIndex(n: int, row: int): (r: Option<nat>)
    requires n >= 0
    ensures r.Some? <==> -n <= row < n
    ensures r.Some? ==> r.value < n && (r.value == row || r.value == n + row)
  {
    if 0 <= row < n then Some(row) else if -n <= row < 0 then Some(n + row) else None
  }
}
