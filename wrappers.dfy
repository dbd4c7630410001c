/** Optional values and the outcome of an operation that can raise Python's KeyError. */
module Wrappers {

  /** Python's `None` versus a present value. */
  datatype Option<+T> = None | Some(value: T)

  /** Either a value, or the KeyError the source raises on a failed dictionary lookup. */
  datatype Result<+T> = Ok(value: T) | KeyError {

    predicate IsFailure() {
      KeyError?
    }

    function PropagateFailure<U>(): Result<U>
      requires KeyError?
    {
      KeyError
    }

    function Extract(): T
      requires Ok?
    {
      value
    }
  }

  /** Python truthiness of an optional string: `None` and `""` are false. */
  predicate Truthy(s: Option<string>) {
    s.Some? && s.value != ""
  }

  /** `str(x)` of an optional string: a missing value prints as "None". */
  function PyStr(s: Option<string>): string {
    match s
    case None => "None"
    case Some(v) => v
  }
}
