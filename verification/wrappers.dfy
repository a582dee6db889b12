/** The optional-value datatype used for "may be absent" values:
    a missing storage slot, a `null` user, a document whose fields cannot be read. */
module Wrappers {

  datatype Option<+T> = None | Some(value: T)
}
