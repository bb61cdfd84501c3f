/** Values that may be absent (std::optional, null pointers and expired references). */
module Options {

  datatype Option<T> = None | Some(value: T)
}
