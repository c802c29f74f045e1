/** A value that may be absent: an empty form field, a lookup that found nothing. */
module Wrappers {
  datatype Option<+T> = None | Some(value: T)
}
