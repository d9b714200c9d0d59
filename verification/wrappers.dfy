/** Optional values: a stored key that may be absent, a session that may be empty. */
module Wrappers {

  datatype Option<+T> = None | Some(value: T)

}
