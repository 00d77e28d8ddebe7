/** Option and Outcome, the two failure-carrying shapes the model needs:
    `undefined` versus a value, and an operation that either finished or threw. */
module Wrappers {

  datatype Option<+T> = None | Some(value: T) {
    /** `x || fallback` for a value that is truthy whenever it is present. */
    function GetOr(fallback: T): T {
      if Some? then value else fallback
    }
  }

  /** Pass, or Fail with the message of the exception the operation threw. */
  datatype Outcome<+E> = Pass | Fail(error: E)
}
