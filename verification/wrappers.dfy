/** Absent values. `None` is JavaScript's `null` where the dataset declares a field
    `number | null`, and `undefined` where a lookup such as `find` matches nothing. */
module Wrappers {

  datatype Option<+T> = None | Some(value: T) {

    /** `x || fallback` and `x ?? fallback` on a value that is never falsy when present. */
    function ValueOr(fallback: T): T {
      if Some? then value else fallback
    }
  }
}
