// A value that may be missing: the model's reading of JavaScript's `null` and
// `undefined` for the session fields `metrics` and `error` and for the `error`
// field of a failure response.
module Wrappers {

  datatype Option<+T> = None | Some(value: T) {

    // The held value, or `fallback` when the value is missing.
    function GetOr(fallback: T): T {
      if Some? then value else fallback
    }
  }
}
