/** Results of checked computations: the source's values, nulls and thrown overflow errors. */
module Outcomes {
  import opened Arith

  datatype Option<+T> = None | Some(value: T)

  /** `Null` is the program's None; `Throws` is a panic (an `unwrap` of None or a failed check). */
  datatype Checked<+T> = Value(value: T) | Null | Throws {
    predicate IsFailure() { !Value? }

    function PropagateFailure<U>(): Checked<U>
      requires IsFailure()
    {
      if Null? then Null else Throws
    }

    function Extract(): T
      requires Value?
    {
      value
    }

    /** `unwrap()`: a None becomes a panic. */
    function Unwrap(): Checked<T> {
      if Null? then Throws else this
    }
  }

  function FitsU64(x: nat): Checked<nat> {
    if x > U64_MAX then Null else Value(x)
  }

  function InU128(x: int): Checked<nat> {
    if x < 0 || x > U128_MAX then Null else Value(x)
  }
}
