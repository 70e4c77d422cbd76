/** Option and the outcome of a Python call that may raise. */
module Wrappers {

  datatype Option<+T> = None | Some(value: T)

  /** The result of a Python call: it returns a value, or it raises an exception
      that no caller in this model catches (a TypeError, KeyError or AttributeError). */
  datatype Outcome<+T> = Returned(value: T) | Raised
}
