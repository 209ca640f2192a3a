/** The optional value used for the fields a quest may leave undefined and
    for the store entries that may be absent. */
module Wrappers {

  datatype Option<+T> = None | Some(value: T)

}
