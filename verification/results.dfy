/** Failure-compatible result type shared by the builders and the decoder. */
module Results {

  /** The ways construction or decoding can fail in the adder. */
  datatype Error =
    | InvalidInput        // a character that Python's int() rejects
    | MalformedSequence   // a gate or sub-circuit that qiskit refuses to add
    | AngleOverflow       // 2π / 2**k with 2**k too large for a float: Python's OverflowError

  datatype Result<T> = Ok(value: T) | Err(error: Error) {

    predicate IsFailure() {
      Err?
    }

    function PropagateFailure<U>(): Result<U>
      requires Err?
    {
      Err(error)
    }

    function Extract(): T
      requires Ok?
    {
      value
    }
  }
}
