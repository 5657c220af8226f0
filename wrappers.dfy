/** The optional value used for JavaScript's `undefined`, NaN and thrown
    errors wherever the dashboard can produce one. */
module Wrappers {

  datatype Option<+T> = None | Some(value: T)
}
