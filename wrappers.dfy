/** Option: a task reference that may be NULL (or a cursor that may sit on the list head). */
module Wrappers {
  datatype Option<+T> = None | Some(value: T)
}
