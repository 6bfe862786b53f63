/** The optional-value type used where a Python call may fail (a missing list
    element, a failed int() conversion). */
module Wrappers {

  datatype Option<+T> = None | Some(value: T)
}
