/** The optional value used across the model (a missing file, a failed clock read, a field sscanf did not assign). */
module Opt {
  datatype Option<T> = None | Some(value: T)
}
