/**
 The failure-carrying values of the model. Python raises exceptions; the model
 returns them. Only the exceptions the modelled code can raise are listed.
 */
module Wrappers {

  /** Python's `None` versus a present value. */
  datatype Option<+T> = None | Some(value: T)

  /**
   Python truthiness of an optional value: `None` is false, and so is the
   one false value of the type itself (0 for numbers, "" for strings).
   */
  predicate Truthy<T(==)>(o: Option<T>, falsy: T) {
    o.Some? && o.value != falsy
  }

  /** The exceptions the modelled functions raise. */
  datatype PyError =
    | KeyError(key: string)   // a dictionary lookup of a missing key
    | IndexError              // a list index outside the list
    | ValueError              // `list.index` of a missing element
    | TypeError               // `str.join` of a list holding `None`

  /** A value, or the exception raised instead of computing it. */
  datatype Result<+T> = Ok(value: T) | Err(error: PyError) {

    predicate IsFailure() {
      Err?
    }

    function PropagateFailure<U>(): Result<U>
      requires Err?
    {
      Err(error)
    }

    function Extract(): T
      requires Ok?
    {
      value
    }
  }
}
