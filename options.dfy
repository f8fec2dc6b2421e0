/** An optional value: the `None` of Python or a present value. */
module Options {
  datatype Option<T> = None | Some(value: T)
}
