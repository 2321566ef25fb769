/** The conventional Some/None datatype, used wherever a JavaScript
    computation can yield NaN, null or "no value". */
module Wrappers {

  datatype Option<+T> = None | Some(value: T)
}
