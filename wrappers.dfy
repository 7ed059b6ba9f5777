/** An optional value: the decoders return None where the Go code would index past the end of its input. */
module Wrappers {
  datatype Option<+T> = None | Some(value: T)
}
