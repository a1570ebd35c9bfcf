/** Shared result type and the C++ integer division used throughout the model. */
module Common {

  /** The value of a call, or the exception it throws. */
  datatype Result<+T, +E> = Ok(value: T) | Err(error: E) {
    predicate IsFailure() {
      Err?
    }

    function PropagateFailure<U>(): (r: Result<U, E>)
      requires Err?
    {
      Err(error)
    }

    function Extract(): T
      requires Ok?
    {
      value
    }
  }

  datatype Option<+T> = None | Some(value: T)

  /** C++ integer division: the quotient is truncated toward zero. */
  function TruncDiv(a: int, b: int): int
    requires b > 0
  {
    if a >= 0 then a / b else -((-a) / b)
  }

  /** The quotient times the divisor is the dividend, but for less than a divisor on the side of zero. */
  lemma TruncDivTowardZero(a: int, b: int)
    requires b > 0
    ensures a >= 0 ==> TruncDiv(a, b) * b <= a < TruncDiv(a, b) * b + b
    ensures a <= 0 ==> TruncDiv(a, b) * b - b < a <= TruncDiv(a, b) * b
  {
  }

  /** Least value of a 64-bit unsigned integer that does not fit. */
  const UINT64_LIMIT: int := 0x1_0000_0000_0000_0000
}
