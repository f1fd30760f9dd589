/** An optional value: `None` stands for a missing or undefined value. */
module Options {
  datatype Option<T> = None | Some(value: T)
}
