/** Option and Result, the failure-carrying datatypes the model uses for
    Python's None and for exceptions that escape a call. */
module Wrappers {

  datatype Option<+T> = None | Some(value: T)

  /** `Failure(msg)` stands for an exception raised and not caught, `msg`
      naming it. */
  datatype Result<+T> = Success(value: T) | Failure(error: string)

  /** Python truthiness of an optional string attribute: None and "" are false. */
  predicate Truthy(s: Option<string>)
  {
    s.Some? && s.value != ""
  }
}
