/** The optional value used for the node fields that may be absent (a namespace,
    an annotation, an attribute value, a fractional or exponent length). */
module Wrappers {
  datatype Option<+T> = None | Some(value: T)
}
