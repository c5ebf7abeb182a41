/** The optional value used for JavaScript's `undefined`/`null` and for oracle results that may fail. */
module Wrappers {

  datatype Option<T> = None | Some(value: T) {

    /** `value` when present, `default` otherwise. */
    function GetOr(default: T): T
    {
      if Some? then value else default
    }
  }
}
