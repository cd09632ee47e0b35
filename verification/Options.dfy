/** A value that may be absent: the null pointers, reserved numbers and unset timeouts of the source. */
module Options {
  datatype Option<T> = None | Some(value: T)
}
