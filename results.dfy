/** Failure-compatible result type and the Python exceptions the core can raise. */
module Results {

  /** The exception classes that reach a handler in the modelled code. */
  datatype Fault =
    | KeyError(key: string)   // `d[k]` on a dict without `k`
    | TypeError               // an operation applied to a value of the wrong type
    | AttributeError          // a method (`get`, `startswith`, ...) the value does not have
    | IndexError              // `population[0]` on an empty list
    | ZeroDivisionError       // `n / 0`
    | StreamError             // the archive record iterator itself failed

  datatype Option<+T> = None | Some(value: T)

  datatype Result<+T> = Ok(value: T) | Err(fault: Fault) {
    predicate IsFailure() { Err? }

    function PropagateFailure<U>(): Result<U>
      requires Err?
    {
      Err(fault)
    }

    function Extract(): T
      requires Ok?
    {
      value
    }
  }
}
