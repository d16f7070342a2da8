/** A nullable value: JavaScript's `T | null` (and `T | undefined`). */
module Nullable {

  datatype Option<+T> = None | Some(value: T)
}
