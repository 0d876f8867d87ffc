/** The failure-free half of the usual wrappers: a value that may be absent
    (a nil reference, a missing map key, an empty one-slot channel). */
module Wrappers {

  datatype Option<+T> = None | Some(value: T)

}
