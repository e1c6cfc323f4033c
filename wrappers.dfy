/** The Some/None datatype used for JavaScript values that may be null
    (a missing query parameter, an absent storage key, no redirect). */
module Wrappers {

  datatype Option<+T> = None | Some(value: T)
}
