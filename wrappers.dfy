/** Optional values: an absent user, an unselected slot, a database call that returned an error. */
module Wrappers {

  datatype Option<+T> = None | Some(value: T)
}
