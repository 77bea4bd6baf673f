/** The optional value used for "the pattern found nothing". */
module Wrappers {
  datatype Option<+T> = None | Some(value: T)
}
