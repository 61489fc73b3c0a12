/** Optional values: an absent document field, or a lookup that found nothing. */
module Wrappers {

  /** `None` when there is nothing; `Some(value)` otherwise. */
  datatype Option<T> = None | Some(value: T)
}
